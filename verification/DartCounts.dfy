// How often the double walk records each call, static member, instantiation and declaration.

module DartCounts {
  import opened ScopeWalk
  import opened DartWalk

  // ---------------------------------------------------------------- where things may stand in a Dart file

  datatype Where = Top | InClass | InEnum | InBody

  /** Where the children of an ordinary node stand: enum constants are children of the enum body alone. */
  function Below(at: Where): Where { if at == InEnum then InClass else at }

  /** The shape the grammar gives: names are not empty; members, constants, types and imports stand outside bodies. */
  predicate Placed(ns: seq<Node>, i: nat, at: Where)
    decreases ListSize(ns, i)
  {
    if i >= |ns| then true
    else
      SizeBelow(ns, i, 0); SizeShrinks(ns, i);
      var n := ns[i];
      && (match n.kind
          case FunctionSignature(name, _, _) => name != ""
          case MethodSignature(name, _, _) => (at == InClass || at == InEnum) && name != ""
          case FunctionBody => Placed(n.children, 0, InBody)
          case ClassDefinition(name, _) => at == Top && name != "" && Placed(n.children, 0, InClass)
          case EnumDeclaration(name, _, hasBody) => at == Top && name != "" && (hasBody ==> Placed(n.children, 0, InEnum))
          case EnumConstant(_, _) => at == InEnum
          case StaticFinal(name, _) => at != InBody && name != ""
          case AliasDeclaration(name, _) => at == Top && name != "" && Placed(n.children, 0, Top)
          case ImportOrExport(_, _) => at == Top
          case _ => Placed(n.children, 0, Below(at)))
      && Placed(ns, i + 1, at)
  }

  predicate Fits(at: Where, stack: seq<Scope>) {
    stack != [] && (at == InClass || at == InEnum ==> InsideClassLike(stack))
  }

  // ---------------------------------------------------------------- counting

  datatype Query = CallsAt(pos: nat) | StaticsAt(pos: nat) | NewsAt(pos: nat) | RowsAt(pos: nat)

  function CountRefs(refs: seq<RefRow>, kind: RefKind, pos: nat): nat {
    if refs == [] then 0
    else CountRefs(refs[..|refs| - 1], kind, pos)
         + if refs[|refs| - 1].kind == kind && refs[|refs| - 1].pos == pos then 1 else 0
  }

  /** Rows made for the declaration at `pos`; the file row is nobody's declaration. */
  function CountRows(rows: seq<NodeRow>, pos: nat): nat {
    if rows == [] then 0
    else CountRows(rows[..|rows| - 1], pos)
         + if rows[|rows| - 1].id.kind != File && rows[|rows| - 1].pos == pos then 1 else 0
  }

  function Count(w: Tables, q: Query): nat {
    match q
    case CallsAt(x) => CountRefs(w.refs, Calls, x)
    case StaticsAt(x) => CountRefs(w.refs, References, x)
    case NewsAt(x) => CountRefs(w.refs, Instantiates, x)
    case RowsAt(x) => CountRows(w.rows, x)
  }

  /** Where the record of a node points to: the receiver of a static member, else the node. */
  function Site(n: Node): nat { if n.kind.StaticMember? then n.kind.at else n.pos }

  /** The syntax nodes the query is about. */
  predicate Asked(q: Query, n: Node) {
    && Site(n) == q.pos
    && match q
       case CallsAt(_) => n.kind.Call?
       case StaticsAt(_) => n.kind.StaticMember?
       case NewsAt(_) => n.kind.New? && n.kind.className != ""
       case RowsAt(_) =>
         match n.kind
         case FunctionSignature(name, _, ctor) => name != "<anonymous>" && !ctor
         case MethodSignature(_, _, ctor) => !ctor
         case ClassDefinition(_, _) => true
         case EnumDeclaration(_, _, hasBody) => hasBody
         case EnumConstant(name, _) => name != ""
         case StaticFinal(_, _) => true
         case AliasDeclaration(name, _) => name != "<anonymous>"
         case ImportOrExport(target, _) => target != ""
         case _ => false
  }

  function Pow2(e: nat): (p: nat)
    ensures p >= 1
  {
    if e == 0 then 1 else 2 * Pow2(e - 1)
  }

  /** How often a node under `e` enclosing bodies is recorded. */
  datatype Law = Doubling | DoublingLessOne {
    function Times(e: nat): nat {
      match this
      case Doubling => Pow2(e)
      case DoublingLessOne => Pow2(e) - 1
    }
  }

  /** A body that belongs to the signature right before it. */
  predicate Paired(ns: seq<Node>, i: nat) {
    0 < i < |ns| && ns[i].kind.FunctionBody? && IsSignature(ns[i - 1].kind)
  }

  /** Whether the walks look below the node itself. */
  predicate Entered(k: SyntaxKind) {
    !IsSignature(k) && !k.StaticFinal? && !k.ImportOrExport? && !k.EnumConstant? && !(k.EnumDeclaration? && !k.hasBody)
  }

  /** The number of enclosing bodies of every asked node in `ns[i..]`, starting from `e`. */
  function Depths(q: Query, ns: seq<Node>, i: nat, e: nat): seq<nat>
    decreases ListSize(ns, i)
  {
    if i >= |ns| then []
    else
      SizeBelow(ns, i, 0); SizeShrinks(ns, i);
      (if Asked(q, ns[i]) then [e] else [])
      + (if Entered(ns[i].kind) then Depths(q, ns[i].children, 0, if Paired(ns, i) then e + 1 else e) else [])
      + Depths(q, ns, i + 1, e)
  }

  function Total(law: Law, depths: seq<nat>): nat {
    if depths == [] then 0 else law.Times(depths[0]) + Total(law, depths[1..])
  }

  /** The total, summed along the tree. */
  function Weight(law: Law, q: Query, ns: seq<Node>, i: nat, e: nat): nat
    decreases ListSize(ns, i)
  {
    if i >= |ns| then 0
    else
      SizeBelow(ns, i, 0); SizeShrinks(ns, i);
      (if Asked(q, ns[i]) then law.Times(e) else 0)
      + (if Entered(ns[i].kind) then Weight(law, q, ns[i].children, 0, if Paired(ns, i) then e + 1 else e) else 0)
      + Weight(law, q, ns, i + 1, e)
  }

  lemma {:induction false} TotalAppend(law: Law, a: seq<nat>, b: seq<nat>)
    ensures Total(law, a + b) == Total(law, a) + Total(law, b)
    decreases |a|
  {
    if a == [] {
      assert a + b == b;
    } else {
      assert (a + b)[1..] == a[1..] + b;
      TotalAppend(law, a[1..], b);
    }
  }

  lemma TimesStep(e: nat)
    ensures Doubling.Times(e + 1) == 2 * Doubling.Times(e)
    ensures DoublingLessOne.Times(e + 1) == Doubling.Times(e) + DoublingLessOne.Times(e)
  {}

  /** Weight, one node at a time. */
  lemma WeightStep(law: Law, q: Query, ns: seq<Node>, i: nat, e: nat)
    requires i < |ns|
    ensures Weight(law, q, ns, i, e)
         == (if Asked(q, ns[i]) then law.Times(e) else 0)
            + (if Entered(ns[i].kind) then Weight(law, q, ns[i].children, 0, if Paired(ns, i) then e + 1 else e) else 0)
            + Weight(law, q, ns, i + 1, e)
  {}

  lemma TotalOfPieces(law: Law, here: bool, e: nat, inner: seq<nat>, rest: seq<nat>)
    ensures Total(law, (if here then [e] else []) + inner + rest)
         == (if here then law.Times(e) else 0) + Total(law, inner) + Total(law, rest)
  {
    TotalAppend(law, inner, rest);
    if here {
      TotalAppend(law, [e] + inner, rest);
      assert ([e] + inner)[1..] == inner;
    } else {
      assert [] + inner == inner;
    }
  }

  /** Depths, one node at a time. */
  lemma DepthsStep(q: Query, ns: seq<Node>, i: nat, e: nat)
    requires i < |ns|
    ensures Depths(q, ns, i, e)
         == (if Asked(q, ns[i]) then [e] else [])
            + (if Entered(ns[i].kind) then Depths(q, ns[i].children, 0, if Paired(ns, i) then e + 1 else e) else [])
            + Depths(q, ns, i + 1, e)
  {}

  lemma {:induction false} WeightIsTotal(law: Law, q: Query, ns: seq<Node>, i: nat, e: nat)
    ensures Weight(law, q, ns, i, e) == Total(law, Depths(q, ns, i, e))
    decreases ListSize(ns, i)
  {
    if i < |ns| {
      hide Asked, Entered, Paired, ListSize, NodeSize, Total, Pow2, Law.Times, Weight, Depths;
      SizeBelow(ns, i, 0);
      SizeShrinks(ns, i);
      WeightStep(law, q, ns, i, e);
      DepthsStep(q, ns, i, e);
      var deeper := if Paired(ns, i) then e + 1 else e;
      var inner := if Entered(ns[i].kind) then Depths(q, ns[i].children, 0, deeper) else [];
      WeightIsTotal(law, q, ns, i + 1, e);
      if Entered(ns[i].kind) {
        WeightIsTotal(law, q, ns[i].children, 0, deeper);
      } else {
        NoDepths(law);
      }
      TotalOfPieces(law, Asked(q, ns[i]), e, inner, Depths(q, ns, i + 1, e));
    }
  }

  lemma NoDepths(law: Law)
    ensures Total(law, []) == 0
  {}

  /** One more enclosing body doubles the doubling law ... */
  lemma {:induction false} OneDeeperDoubles(q: Query, ns: seq<Node>, i: nat, e: nat)
    ensures Weight(Doubling, q, ns, i, e + 1) == 2 * Weight(Doubling, q, ns, i, e)
    decreases ListSize(ns, i)
  {
    hide Asked, Entered, Paired, ListSize, NodeSize, Pow2, Law.Times;
    if i < |ns| {
      SizeBelow(ns, i, 0);
      SizeShrinks(ns, i);
      OneDeeperDoubles(q, ns, i + 1, e);
      OneDeeperDoubles(q, ns[i].children, 0, if Paired(ns, i) then e + 1 else e);
      TimesStep(e);
      WeightStep(Doubling, q, ns, i, e);
      WeightStep(Doubling, q, ns, i, e + 1);
    } else {
      assert Weight(Doubling, q, ns, i, e) == 0;
    }
  }

  /** ... and adds it to the other one. */
  lemma {:induction false} OneDeeperAdds(q: Query, ns: seq<Node>, i: nat, e: nat)
    ensures Weight(DoublingLessOne, q, ns, i, e + 1)
         == Weight(Doubling, q, ns, i, e) + Weight(DoublingLessOne, q, ns, i, e)
    decreases ListSize(ns, i)
  {
    hide Asked, Entered, Paired, ListSize, NodeSize, Pow2, Law.Times;
    if i < |ns| {
      SizeBelow(ns, i, 0);
      SizeShrinks(ns, i);
      OneDeeperAdds(q, ns, i + 1, e);
      OneDeeperAdds(q, ns[i].children, 0, if Paired(ns, i) then e + 1 else e);
      TimesStep(e);
      WeightStep(Doubling, q, ns, i, e);
      WeightStep(DoublingLessOne, q, ns, i, e);
      WeightStep(DoublingLessOne, q, ns, i, e + 1);
    }
  }

  // ---------------------------------------------------------------- single steps

  lemma RefCounted(w: Tables, kind: RefKind, name: string, pos: nat, q: Query)
    ensures Count(AddRef(w, kind, name, pos), q) == Count(w, q)
      + if (q == CallsAt(pos) && kind == Calls) || (q == StaticsAt(pos) && kind == References)
           || (q == NewsAt(pos) && kind == Instantiates) then 1 else 0
  {
    assert (w.refs + [RefRow(TopRow(w.stack), kind, name, pos)])[..|w.refs|] == w.refs;
  }

  lemma RowCounted(w: Tables, kind: DeclKind, name: string, line: nat, pos: nat, q: Query)
    requires name != ""
    ensures Count(AddRow(w, kind, name, line, pos), q) == Count(w, q) + if q == RowsAt(pos) then 1 else 0
  {
    assert AddRow(w, kind, name, line, pos).rows[..|w.rows|] == w.rows;
  }

  /** What the walk of a signature adds by walking its sibling body. */
  function Ahead(q: Query, ns: seq<Node>, i: nat): nat {
    if Paired(ns, i) then Weight(Doubling, q, ns[i].children, 0, 0) else 0
  }

  function One(b: bool): nat { if b then 1 else 0 }

  // ---------------------------------------------------------------- the body walk

  /** The body walk records a node under `e` further bodies 2^e times. */
  lemma {:induction false} BodyAllCounts(w: Tables, ns: seq<Node>, i: nat, q: Query)
    requires Placed(ns, i, InBody) && w.stack != []
    ensures Count(BodyAll(w, ns, i), q) + Ahead(q, ns, i) == Count(w, q) + Weight(Doubling, q, ns, i, 0)
    decreases ListSize(ns, i), 4
  {
    if i < |ns| {
      SizeShrinks(ns, i);
      SizeBelow(ns, i, 0);
      BodyCounts(w, ns, i, q);
      BodyKeepsStack(w, ns, i);
      BodyAllCounts(VisitBody(w, ns, i), ns, i + 1, q);
      OneDeeperDoubles(q, ns[i].children, 0, 0);
    }
  }

  lemma {:induction false} BodyCounts(w: Tables, ns: seq<Node>, i: nat, q: Query)
    requires i < |ns| && Placed(ns, i, InBody) && w.stack != []
    ensures Count(VisitBody(w, ns, i), q)
         == Count(w, q) + One(Asked(q, ns[i])) + Ahead(q, ns, i + 1)
            + if Entered(ns[i].kind) then Weight(Doubling, q, ns[i].children, 0, 0) else 0
    decreases ListSize(ns, i), 3
  {
    hide Count, Weight, ListSize, NodeSize, Pow2;
    SizeShrinks(ns, i);
    SizeBelow(ns, i, 0);
    var n := ns[i];
    match n.kind
    case FunctionSignature(_, _, _) =>
      FunctionCounts(w, ns, i, q);
    case New(c) =>
      var w1 := if c == "" then w else AddRef(w, Instantiates, c, n.pos);
      RefCounted(w, Instantiates, c, n.pos, q);
      BodyAllCounts(w1, n.children, 0, q);
    case Call(c) =>
      RefCounted(w, Calls, c, n.pos, q);
      BodyAllCounts(AddRef(w, Calls, c, n.pos), n.children, 0, q);
    case StaticMember(c, pos) =>
      RefCounted(w, References, c, pos, q);
      BodyAllCounts(AddRef(w, References, c, pos), n.children, 0, q);
    case FunctionBody =>
      BodyAllCounts(w, n.children, 0, q);
    case Plain =>
      BodyAllCounts(w, n.children, 0, q);
    case _ =>
  }

  /** A body, walked for its signature. */
  lemma {:induction false} WalkBodyCounts(w: Tables, ns: seq<Node>, i: nat, q: Query, at: Where)
    requires i < |ns| && IsSignature(ns[i].kind) && Placed(ns, i, at) && w.stack != []
    ensures Count(WalkBody(w, ns, i), q) == Count(w, q) + Ahead(q, ns, i + 1)
    decreases ListSize(ns, i), 0
  {
    SizeShrinks(ns, i);
    if HasBody(ns, i) {
      SizeBelow(ns, i + 1, 0);
      BodyAllCounts(w, ns[i + 1].children, 0, q);
    }
  }

  lemma {:induction false} DeclareCounts(w: Tables, ns: seq<Node>, i: nat, kind: DeclKind, q: Query, at: Where)
    requires i < |ns| && IsSignature(ns[i].kind) && Placed(ns, i, at) && w.stack != []
    ensures Count(Declare(w, ns, i, kind), q)
         == Count(w, q) + One(q == RowsAt(ns[i].pos)) + Ahead(q, ns, i + 1)
    decreases ListSize(ns, i), 1
  {
    var k := ns[i].kind;
    RowCounted(w, kind, k.name, k.line, ns[i].pos, q);
    WalkBodyCounts(Enter(AddRow(w, kind, k.name, k.line, ns[i].pos), kind, k.name, |w.rows|), ns, i, q, at);
  }

  lemma {:induction false} FunctionCounts(w: Tables, ns: seq<Node>, i: nat, q: Query)
    requires i < |ns| && ns[i].kind.FunctionSignature? && w.stack != []
    requires exists at :: Placed(ns, i, at)
    ensures Count(ExtractFunction(w, ns, i), q) == Count(w, q) + One(Asked(q, ns[i])) + Ahead(q, ns, i + 1)
    decreases ListSize(ns, i), 2
  {
    var at :| Placed(ns, i, at);
    WalkBodyCounts(w, ns, i, q, at);
    DeclareCounts(w, ns, i, Function, q, at);
  }

  // ---------------------------------------------------------------- the enclosing walk

  /** What the body walk alone records. */
  predicate BodyOnly(q: Query) { q.CallsAt? || q.StaticsAt? }

  /** The enclosing walk adds one more record of everything else. */
  function LawOf(q: Query): Law {
    if BodyOnly(q) then DoublingLessOne else Doubling
  }

  lemma {:induction false} MethodCounts(w: Tables, ns: seq<Node>, i: nat, q: Query, at: Where)
    requires i < |ns| && ns[i].kind.MethodSignature? && Placed(ns, i, at) && InsideClassLike(w.stack)
    ensures Count(ExtractMethod(w, ns, i), q) == Count(w, q) + One(Asked(q, ns[i])) + Ahead(q, ns, i + 1)
  {
    WalkBodyCounts(w, ns, i, q, at);
    DeclareCounts(w, ns, i, Method, q, at);
  }

  lemma {:induction false} VisitAllCounts(w: Tables, ns: seq<Node>, i: nat, q: Query, at: Where)
    requires Placed(ns, i, at) && Fits(at, w.stack) && at != InEnum
    ensures Count(VisitAll(w, ns, i), q) + Ahead(q, ns, i) == Count(w, q) + Weight(LawOf(q), q, ns, i, 0)
    decreases ListSize(ns, i), 3
  {
    hide Asked, Visit, Count, ListSize, NodeSize, Pow2, Law.Times;
    if i < |ns| {
      SizeShrinks(ns, i);
      SizeBelow(ns, i, 0);
      VisitCounts(w, ns, i, q, at);
      NodeKeepsStack(w, ns, i);
      VisitAllCounts(Visit(w, ns, i), ns, i + 1, q, at);
      OneDeeperDoubles(q, ns[i].children, 0, 0);
      OneDeeperAdds(q, ns[i].children, 0, 0);
    }
  }

  lemma {:induction false} EnumAllCounts(w: Tables, ns: seq<Node>, i: nat, q: Query)
    requires Placed(ns, i, InEnum) && Fits(InEnum, w.stack)
    ensures Count(EnumAll(w, ns, i), q) + Ahead(q, ns, i) == Count(w, q) + Weight(LawOf(q), q, ns, i, 0)
    decreases ListSize(ns, i), 3
  {
    hide Asked, VisitMember, Count, ListSize, NodeSize, Pow2, Law.Times;
    if i < |ns| {
      SizeShrinks(ns, i);
      SizeBelow(ns, i, 0);
      MemberCounts(w, ns, i, q);
      MemberKeepsStack(w, ns, i);
      EnumAllCounts(VisitMember(w, ns, i), ns, i + 1, q);
      OneDeeperDoubles(q, ns[i].children, 0, 0);
      OneDeeperAdds(q, ns[i].children, 0, 0);
    }
  }

  /** What a node adds: itself if asked for, the body its signature walks ahead, and what is below it. */
  predicate Adds(w: Tables, g: Tables, ns: seq<Node>, i: nat, q: Query)
    requires i < |ns|
  {
    Count(g, q)
    == Count(w, q) + (if Asked(q, ns[i]) then LawOf(q).Times(0) else 0) + Ahead(q, ns, i + 1)
       + if Entered(ns[i].kind) then Weight(LawOf(q), q, ns[i].children, 0, 0) else 0
  }

  lemma {:induction false} MemberCounts(w: Tables, ns: seq<Node>, i: nat, q: Query)
    requires i < |ns| && Placed(ns, i, InEnum) && Fits(InEnum, w.stack)
    ensures Adds(w, VisitMember(w, ns, i), ns, i, q)
    decreases ListSize(ns, i), 2
  {
    var k := ns[i].kind;
    if k.EnumConstant? {
      if k.name != "" {
        RowCounted(w, EnumMember, k.name, k.line, ns[i].pos, q);
      }
    } else {
      VisitCounts(w, ns, i, q, InEnum);
    }
  }

  lemma {:induction false} VisitCounts(w: Tables, ns: seq<Node>, i: nat, q: Query, at: Where)
    requires i < |ns| && Placed(ns, i, at) && Fits(at, w.stack) && !ns[i].kind.EnumConstant?
    ensures Adds(w, Visit(w, ns, i), ns, i, q)
    decreases ListSize(ns, i), 1
  {
    hide Count, Weight, ListSize, NodeSize, EnumAll, VisitAll, Pow2;
    OnceOutside(q);
    var n := ns[i];
    match n.kind
    case FunctionSignature(_, _, _) =>
      FunctionCounts(w, ns, i, q);
    case MethodSignature(_, _, _) =>
      MethodCounts(w, ns, i, q, at);
    case StaticFinal(name, line) =>
      RowCounted(w, Constant, name, line, n.pos, q);
    case ImportOrExport(target, line) =>
      ImportCounted(w, target, line, n.pos, q);
    case ClassDefinition(_, _) =>
      TypeCounts(w, ns, i, q, at);
    case EnumDeclaration(_, _, _) =>
      TypeCounts(w, ns, i, q, at);
    case EnumConstant(_, _) =>
    case _ =>
      ThroughCounts(w, ns, i, q, at);
  }

  /** The nodes whose children the walk goes on to in the same scope. */
  predicate WalkedThrough(k: SyntaxKind) { k.AliasDeclaration? || k.New? || k.FunctionBody? || k.Call? || k.StaticMember? || k.Plain? }

  lemma {:induction false} ThroughCounts(w: Tables, ns: seq<Node>, i: nat, q: Query, at: Where)
    requires i < |ns| && Placed(ns, i, at) && Fits(at, w.stack) && WalkedThrough(ns[i].kind)
    ensures Adds(w, Visit(w, ns, i), ns, i, q)
    decreases ListSize(ns, i), 0
  {
    hide Count, Weight, ListSize, NodeSize, EnumAll, VisitAll, Pow2;
    SizeBelow(ns, i, 0);
    OnceOutside(q);
    var n := ns[i];
    if n.kind.AliasDeclaration? {
      if n.kind.name != "<anonymous>" {
        RowCounted(w, TypeAlias, n.kind.name, n.kind.line, n.pos, q);
      }
      VisitAllCounts(AddAlias(w, n.kind.name, n.kind.line, n.pos), n.children, 0, q, at);
    } else if n.kind.New? {
      var c := n.kind.className;
      RefCounted(w, Instantiates, c, n.pos, q);
      VisitAllCounts(if c == "" then w else AddRef(w, Instantiates, c, n.pos), n.children, 0, q, Below(at));
    } else {
      VisitAllCounts(w, n.children, 0, q, if n.kind.FunctionBody? then InBody else Below(at));
    }
  }

  /** A class or an enum: its row, and what is inside its scope. */
  lemma {:induction false} TypeCounts(w: Tables, ns: seq<Node>, i: nat, q: Query, at: Where)
    requires i < |ns| && Placed(ns, i, at) && Fits(at, w.stack)
    requires ns[i].kind.ClassDefinition? || ns[i].kind.EnumDeclaration?
    ensures Adds(w, Visit(w, ns, i), ns, i, q)
    decreases ListSize(ns, i), 0
  {
    hide Count, Weight, ListSize, NodeSize, EnumAll, VisitAll, Pow2;
    SizeBelow(ns, i, 0);
    OnceOutside(q);
    var n := ns[i];
    var kind := if n.kind.ClassDefinition? then Class else Enum;
    var made := Enter(AddRow(w, kind, n.kind.name, n.kind.line, n.pos), kind, n.kind.name, |w.rows|);
    RowCounted(w, kind, n.kind.name, n.kind.line, n.pos, q);
    EnteredCounts(w, kind, n.kind.name, n.kind.line, n.pos, q);
    if n.kind.ClassDefinition? {
      VisitAllCounts(made, n.children, 0, q, InClass);
    } else if n.kind.hasBody {
      EnumAllCounts(made, n.children, 0, q);
    }
  }

  lemma ImportCounted(w: Tables, target: string, line: nat, pos: nat, q: Query)
    ensures Count(AddImport(w, target, line, pos), q) == Count(w, q) + One(target != "" && q == RowsAt(pos))
  {
    hide Count;
    if target != "" {
      RowCounted(w, Import, target, line, pos, q);
      RefCounted(AddRow(w, Import, target, line, pos), Imports, target, pos, q);
    }
  }

  /** Outside every body the enclosing walk records exactly once what is not the body walk's alone. */
  lemma OnceOutside(q: Query)
    ensures LawOf(q).Times(0) == One(!BodyOnly(q))
  {}

  /** A scope changes no count, on the way in or out. */
  lemma EnteredCounts(w: Tables, kind: DeclKind, name: string, line: nat, pos: nat, q: Query)
    ensures forall g: Tables, stack: seq<Scope> :: Count(Back(g, stack), q) == Count(g, q)
    ensures Count(Enter(AddRow(w, kind, name, line, pos), kind, name, |w.rows|), q) == Count(AddRow(w, kind, name, line, pos), q)
  {}

  // ---------------------------------------------------------------- the theorem

  /**
   * The exact number of records of the whole file walk: a call and a reference
   * to a static member under `e` enclosing bodies are recorded 2^e - 1 times, a
   * `new` expression and a declaration 2^e times.
   */
  lemma DoubleWalkCounts(root: seq<Node>, file: string, q: Query)
    requires Placed(root, 0, Top)
    ensures Count(VisitAll(Start(file), root, 0), q)
         == Total(LawOf(q), Depths(q, root, 0, 0))
  {
    VisitAllCounts(Start(file), root, 0, q, Top);
    var rows := Start(file).rows;
    assert rows[..0] == [] && rows[0].id.kind == File;
    assert CountRows(rows, q.pos) == CountRows(rows[..0], q.pos);
    WeightIsTotal(LawOf(q), q, root, 0, 0);
  }

  /** The single-site reading: under `d` local functions, that is `d + 1` bodies. */
  lemma SingleSite(root: seq<Node>, file: string, q: Query, d: nat)
    requires Placed(root, 0, Top) && Depths(q, root, 0, 0) == [d + 1]
    ensures var n := Count(VisitAll(Start(file), root, 0), q);
            n == if BodyOnly(q) then Pow2(d + 1) - 1 else Pow2(d + 1)
  {
    DoubleWalkCounts(root, file, q);
    TotalOfPieces(LawOf(q), true, d + 1, [], []);
    var one: seq<nat> := [d + 1];
    assert one + [] + [] == one;
  }

  // ---------------------------------------------------------------- duplicates share one identity

  /** The id every row made for the declaration `n` carries. */
  function IdOf(n: Node): Id {
    match n.kind
    case FunctionSignature(name, line, _) => Id(Function, name, line)
    case MethodSignature(name, line, _) => Id(Method, name, line)
    case ClassDefinition(name, line) => Id(Class, name, line)
    case EnumDeclaration(name, line, _) => Id(Enum, name, line)
    case EnumConstant(name, line) => Id(EnumMember, name, line)
    case StaticFinal(name, line) => Id(Constant, name, line)
    case AliasDeclaration(name, line) => Id(TypeAlias, name, line)
    case ImportOrExport(target, line) => Id(Import, target, line)
    case _ => Id(File, "", 0)
  }

  /** The nodes that make a row. */
  predicate Declares(k: SyntaxKind) {
    IsSignature(k) || k.ClassDefinition? || k.EnumDeclaration? || k.EnumConstant? || k.StaticFinal?
    || k.AliasDeclaration? || k.ImportOrExport?
  }

  /** Every declaration of the tree that stands at `pos` has identity `id`. */
  predicate OnlyOne(ns: seq<Node>, i: nat, pos: nat, id: Id)
    decreases ListSize(ns, i)
  {
    if i >= |ns| then true
    else
      SizeBelow(ns, i, 0); SizeShrinks(ns, i);
      && (ns[i].pos == pos && Declares(ns[i].kind) ==> IdOf(ns[i]) == id)
      && OnlyOne(ns[i].children, 0, pos, id)
      && OnlyOne(ns, i + 1, pos, id)
  }

  predicate RowsAgree(w: Tables, pos: nat, id: Id) {
    forall r :: r in w.rows && r.pos == pos && r.id.kind != File ==> r.id == id
  }

  lemma {:induction false} BodyAllAgrees(w: Tables, ns: seq<Node>, i: nat, pos: nat, id: Id)
    requires OnlyOne(ns, i, pos, id) && RowsAgree(w, pos, id)
    ensures RowsAgree(BodyAll(w, ns, i), pos, id)
    decreases ListSize(ns, i), 4
  {
    if i < |ns| {
      SizeShrinks(ns, i);
      BodyAgrees(w, ns, i, pos, id);
      BodyAllAgrees(VisitBody(w, ns, i), ns, i + 1, pos, id);
    }
  }

  lemma {:induction false} BodyAgrees(w: Tables, ns: seq<Node>, i: nat, pos: nat, id: Id)
    requires i < |ns| && OnlyOne(ns, i, pos, id) && RowsAgree(w, pos, id)
    ensures RowsAgree(VisitBody(w, ns, i), pos, id)
    decreases ListSize(ns, i), 3
  {
    SizeBelow(ns, i, 0);
    var n := ns[i];
    match n.kind
    case FunctionSignature(_, _, _) => FunctionAgrees(w, ns, i, pos, id);
    case New(c) =>
      BodyAllAgrees(if w.stack == [] || c == "" then w else AddRef(w, Instantiates, c, n.pos), n.children, 0, pos, id);
    case Call(c) =>
      BodyAllAgrees(if w.stack == [] then w else AddRef(w, Calls, c, n.pos), n.children, 0, pos, id);
    case StaticMember(c, at) =>
      BodyAllAgrees(if w.stack == [] then w else AddRef(w, References, c, at), n.children, 0, pos, id);
    case _ => BodyAllAgrees(w, n.children, 0, pos, id);
  }

  lemma {:induction false} WalkBodyAgrees(w: Tables, ns: seq<Node>, i: nat, pos: nat, id: Id)
    requires i < |ns| && OnlyOne(ns, i, pos, id) && RowsAgree(w, pos, id)
    ensures RowsAgree(WalkBody(w, ns, i), pos, id)
    decreases ListSize(ns, i), 0
  {
    SizeShrinks(ns, i);
    if HasBody(ns, i) {
      BodyAgrees(w, ns, i + 1, pos, id);
    }
  }

  lemma {:induction false} DeclareAgrees(w: Tables, ns: seq<Node>, i: nat, kind: DeclKind, pos: nat, id: Id)
    requires i < |ns| && IsSignature(ns[i].kind) && OnlyOne(ns, i, pos, id) && RowsAgree(w, pos, id)
    requires kind == IdOf(ns[i]).kind
    ensures RowsAgree(Declare(w, ns, i, kind), pos, id)
    decreases ListSize(ns, i), 1
  {
    var k := ns[i].kind;
    WalkBodyAgrees(Enter(AddRow(w, kind, k.name, k.line, ns[i].pos), kind, k.name, |w.rows|), ns, i, pos, id);
  }

  lemma {:induction false} FunctionAgrees(w: Tables, ns: seq<Node>, i: nat, pos: nat, id: Id)
    requires i < |ns| && ns[i].kind.FunctionSignature? && OnlyOne(ns, i, pos, id) && RowsAgree(w, pos, id)
    ensures RowsAgree(ExtractFunction(w, ns, i), pos, id)
    decreases ListSize(ns, i), 2
  {
    WalkBodyAgrees(w, ns, i, pos, id);
    DeclareAgrees(w, ns, i, Function, pos, id);
  }

  lemma {:induction false} VisitAllAgrees(w: Tables, ns: seq<Node>, i: nat, pos: nat, id: Id, at: Where)
    requires Placed(ns, i, at) && Fits(at, w.stack) && at != InEnum
    requires OnlyOne(ns, i, pos, id) && RowsAgree(w, pos, id)
    ensures RowsAgree(VisitAll(w, ns, i), pos, id)
    decreases ListSize(ns, i), 6
  {
    hide Visit, RowsAgree;
    if i < |ns| {
      SizeShrinks(ns, i);
      VisitAgrees(w, ns, i, pos, id, at);
      NodeKeepsStack(w, ns, i);
      VisitAllAgrees(Visit(w, ns, i), ns, i + 1, pos, id, at);
    }
  }

  lemma {:induction false} EnumAllAgrees(w: Tables, ns: seq<Node>, i: nat, pos: nat, id: Id)
    requires Placed(ns, i, InEnum) && Fits(InEnum, w.stack)
    requires OnlyOne(ns, i, pos, id) && RowsAgree(w, pos, id)
    ensures RowsAgree(EnumAll(w, ns, i), pos, id)
    decreases ListSize(ns, i), 6
  {
    hide Visit, RowsAgree, AddRow;
    if i < |ns| {
      SizeShrinks(ns, i);
      var k := ns[i].kind;
      if k.EnumConstant? {
        RowAgrees(w, EnumMember, k.name, k.line, ns[i].pos, pos, id);
      } else {
        VisitAgrees(w, ns, i, pos, id, InEnum);
      }
      MemberKeepsStack(w, ns, i);
      EnumAllAgrees(VisitMember(w, ns, i), ns, i + 1, pos, id);
    }
  }

  lemma RowAgrees(w: Tables, kind: DeclKind, name: string, line: nat, at: nat, pos: nat, id: Id)
    requires RowsAgree(w, pos, id) && (at == pos ==> Id(kind, name, line) == id)
    ensures RowsAgree(AddRow(w, kind, name, line, at), pos, id)
  {}

  lemma {:induction false} VisitAgrees(w: Tables, ns: seq<Node>, i: nat, pos: nat, id: Id, at: Where)
    requires i < |ns| && Placed(ns, i, at) && Fits(at, w.stack) && !ns[i].kind.EnumConstant?
    requires OnlyOne(ns, i, pos, id) && RowsAgree(w, pos, id)
    ensures RowsAgree(Visit(w, ns, i), pos, id)
    decreases ListSize(ns, i), 5
  {
    hide AddRow, ExtractMethod, ExtractFunction, EnumAll, VisitAll;
    SizeBelow(ns, i, 0);
    var n := ns[i];
    match n.kind
    case FunctionSignature(_, _, _) => FunctionAgrees(w, ns, i, pos, id);
    case MethodSignature(_, _, _) => MethodAgrees(w, ns, i, pos, id);
    case StaticFinal(name, line) => RowAgrees(w, Constant, name, line, n.pos, pos, id);
    case ImportOrExport(target, line) => RowAgrees(w, Import, target, line, n.pos, pos, id);
    case ClassDefinition(_, _) => TypeAgrees(w, ns, i, pos, id, at);
    case EnumDeclaration(_, _, _) => TypeAgrees(w, ns, i, pos, id, at);
    case AliasDeclaration(name, line) =>
      RowAgrees(w, TypeAlias, name, line, n.pos, pos, id);
      StackOfAlias(w, name, line, n.pos);
      VisitAllAgrees(AddAlias(w, name, line, n.pos), n.children, 0, pos, id, at);
    case New(c) =>
      VisitAllAgrees(if c == "" then w else AddRef(w, Instantiates, c, n.pos), n.children, 0, pos, id, Below(at));
    case FunctionBody => VisitAllAgrees(w, n.children, 0, pos, id, InBody);
    case Call(_) => VisitAllAgrees(w, n.children, 0, pos, id, Below(at));
    case StaticMember(_, _) => VisitAllAgrees(w, n.children, 0, pos, id, Below(at));
    case Plain => VisitAllAgrees(w, n.children, 0, pos, id, Below(at));
    case EnumConstant(_, _) =>
  }

  lemma StackOfAlias(w: Tables, name: string, line: nat, pos: nat)
    ensures AddAlias(w, name, line, pos).stack == w.stack
  {}

  lemma MethodAgrees(w: Tables, ns: seq<Node>, i: nat, pos: nat, id: Id)
    requires i < |ns| && ns[i].kind.MethodSignature? && InsideClassLike(w.stack)
    requires OnlyOne(ns, i, pos, id) && RowsAgree(w, pos, id)
    ensures RowsAgree(ExtractMethod(w, ns, i), pos, id)
  {
    WalkBodyAgrees(w, ns, i, pos, id);
    DeclareAgrees(w, ns, i, Method, pos, id);
  }

  lemma {:induction false} TypeAgrees(w: Tables, ns: seq<Node>, i: nat, pos: nat, id: Id, at: Where)
    requires i < |ns| && Placed(ns, i, at) && Fits(at, w.stack)
    requires ns[i].kind.ClassDefinition? || ns[i].kind.EnumDeclaration?
    requires OnlyOne(ns, i, pos, id) && RowsAgree(w, pos, id)
    ensures RowsAgree(Visit(w, ns, i), pos, id)
    decreases ListSize(ns, i), 4
  {
    SizeBelow(ns, i, 0);
    var n := ns[i];
    var kind := if n.kind.ClassDefinition? then Class else Enum;
    var made := Enter(AddRow(w, kind, n.kind.name, n.kind.line, n.pos), kind, n.kind.name, |w.rows|);
    RowAgrees(w, kind, n.kind.name, n.kind.line, n.pos, pos, id);
    if n.kind.ClassDefinition? {
      VisitAllAgrees(made, n.children, 0, pos, id, InClass);
    } else if n.kind.hasBody {
      EnumAllAgrees(made, n.children, 0, pos, id);
    }
  }

  /** All the rows the double walk makes for one declaration carry the same id. */
  lemma DuplicatesShareId(root: seq<Node>, file: string, pos: nat, id: Id)
    requires Placed(root, 0, Top) && OnlyOne(root, 0, pos, id)
    ensures RowsAgree(VisitAll(Start(file), root, 0), pos, id)
  {
    VisitAllAgrees(Start(file), root, 0, pos, id, Top);
  }
}
