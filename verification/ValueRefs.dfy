// Value references: explicit-stack traversals under a visit budget, against the plain recursion.

module ValueRefs {
  import opened Wrappers
  import opened ScopeWalk
  import opened Seqs

  const MAX_NODES: nat := 20000

  datatype Mark = Identifier(text: string) | OtherName(text: string) | Declarator | Inner

  datatype Syntax = Syntax(mark: Mark, children: seq<Syntax>)

  /** The variable a declarator declares. */
  function Declares(n: Syntax): Option<string> {
    if n.mark.Declarator? && n.children != [] && n.children[0].mark.Identifier? then Some(n.children[0].mark.text) else None
  }

  function Names(n: Syntax): Option<string> {
    match n.mark
    case Identifier(text) => Some(text)
    case OtherName(text) => Some(text)
    case _ => None
  }

  // ---------------------------------------------------------------- the plain recursion

  function Size(n: Syntax): nat
    decreases n, 1
  {
    1 + SizeAll(n.children)
  }

  function SizeAll(ns: seq<Syntax>): nat
    decreases ns, 0
  {
    if ns == [] then 0 else SizeAll(ns[..|ns| - 1]) + Size(ns[|ns| - 1])
  }

  /** Declarations of `name` in the subtree. */
  function Declarations(n: Syntax, name: string): nat
    decreases n, 1
  {
    (if n.mark.Declarator? && n.children != [] && n.children[0].mark == Identifier(name) then 1 else 0)
    + DeclarationsAll(n.children, name)
  }

  function DeclarationsAll(ns: seq<Syntax>, name: string): nat
    decreases ns, 0
  {
    if ns == [] then 0 else DeclarationsAll(ns[..|ns| - 1], name) + Declarations(ns[|ns| - 1], name)
  }

  /** Some node of the subtree is the name. */
  predicate Mentions(n: Syntax, name: string)
    decreases n, 1
  {
    n.mark == Identifier(name) || n.mark == OtherName(name) || MentionsAll(n.children, name)
  }

  predicate MentionsAll(ns: seq<Syntax>, name: string)
    decreases ns, 0
  {
    ns != [] && (MentionsAll(ns[..|ns| - 1], name) || Mentions(ns[|ns| - 1], name))
  }

  // ---------------------------------------------------------------- the explicit stack

  /** The nodes popped from `stack` before the budget runs out. */
  function Popped(stack: seq<Syntax>, budget: nat): seq<Syntax>
    decreases budget
  {
    if budget == 0 || stack == [] then []
    else
      var n := stack[|stack| - 1];
      [n] + Popped(stack[..|stack| - 1] + n.children, budget - 1)
  }

  function CountDeclares(ns: seq<Syntax>, name: string): nat {
    if ns == [] then 0 else (if Declares(ns[0]) == Some(name) then 1 else 0) + CountDeclares(ns[1..], name)
  }

  predicate AnyNames(ns: seq<Syntax>, name: string) {
    exists k :: 0 <= k < |ns| && Names(ns[k]) == Some(name)
  }

  lemma {:induction false} AppendAll(a: seq<Syntax>, b: seq<Syntax>, name: string)
    ensures SizeAll(a + b) == SizeAll(a) + SizeAll(b)
    ensures DeclarationsAll(a + b, name) == DeclarationsAll(a, name) + DeclarationsAll(b, name)
    ensures MentionsAll(a + b, name) <==> MentionsAll(a, name) || MentionsAll(b, name)
    decreases |b|
  {
    if b == [] {
      assert a + b == a;
    } else {
      assert (a + b)[..|a + b| - 1] == a + b[..|b| - 1];
      AppendAll(a, b[..|b| - 1], name);
    }
  }

  /** What popping one node and pushing its children does to the measures of the stack. */
  lemma PopOne(stack: seq<Syntax>, name: string)
    requires stack != []
    ensures var n := stack[|stack| - 1];
            var next := stack[..|stack| - 1] + n.children;
            && SizeAll(stack) == 1 + SizeAll(next)
            && DeclarationsAll(stack, name) == (if Declares(n) == Some(name) then 1 else 0) + DeclarationsAll(next, name)
            && (MentionsAll(stack, name) <==> Names(n) == Some(name) || MentionsAll(next, name))
  {
    AppendAll(stack[..|stack| - 1], stack[|stack| - 1].children, name);
  }

  lemma AnyNamesStep(n: Syntax, rest: seq<Syntax>, name: string)
    ensures AnyNames([n] + rest, name) <==> Names(n) == Some(name) || AnyNames(rest, name)
  {
    var all := [n] + rest;
    if AnyNames(rest, name) {
      var k :| 0 <= k < |rest| && Names(rest[k]) == Some(name);
      assert all[k + 1] == rest[k];
    }
    assert all[0] == n;
    if k :| 0 < k < |all| && Names(all[k]) == Some(name) {
      assert rest[k - 1] == all[k];
    }
  }

  /** With enough budget the stack visits every node of the trees, exactly once; otherwise, some of them. */
  lemma {:induction false} PoppedVisits(stack: seq<Syntax>, budget: nat, name: string)
    ensures CountDeclares(Popped(stack, budget), name) <= DeclarationsAll(stack, name)
    ensures AnyNames(Popped(stack, budget), name) ==> MentionsAll(stack, name)
    ensures |Popped(stack, budget)| == if SizeAll(stack) <= budget then SizeAll(stack) else budget
    ensures SizeAll(stack) <= budget ==>
      && CountDeclares(Popped(stack, budget), name) == DeclarationsAll(stack, name)
      && (AnyNames(Popped(stack, budget), name) <==> MentionsAll(stack, name))
    decreases budget
  {
    hide Names, Declares, AnyNames;
    if stack == [] || budget == 0 {
      SizePositive(stack);
      NothingNamed(name);
    } else {
      hide SizeAll, DeclarationsAll, MentionsAll;
      var n := stack[|stack| - 1];
      var next := stack[..|stack| - 1] + n.children;
      PopOne(stack, name);
      PoppedVisits(next, budget - 1, name);
      var rest := Popped(next, budget - 1);
      AnyNamesStep(n, rest, name);
      assert ([n] + rest)[1..] == rest;
    }
  }

  lemma SizePositive(ns: seq<Syntax>)
    ensures ns != [] ==> SizeAll(ns) > 0
  {}

  lemma NothingNamed(name: string)
    ensures !AnyNames([], name)
  {}

  // ---------------------------------------------------------------- targets and shadowing

  datatype Capture = Capture(name: string, row: nat)

  datatype ValueScope = ValueScope(row: nat, node: Syntax, name: string)

  /** Each captured name at its latest row. */
  function Targets(captures: seq<Capture>): (t: map<string, nat>)
    ensures forall name :: name in t <==> exists k :: 0 <= k < |captures| && captures[k].name == name
  {
    if captures == [] then map[]
    else
      var last := captures[|captures| - 1];
      var t := Targets(captures[..|captures| - 1])[last.name := last.row];
      assert captures[|captures| - 1].name == last.name;
      t
  }

  function CaptureCount(captures: seq<Capture>, name: string): nat {
    if captures == [] then 0
    else CaptureCount(captures[..|captures| - 1], name) + if captures[|captures| - 1].name == name then 1 else 0
  }

  function Get(counts: map<string, nat>, name: string, default: nat): nat {
    if name in counts then counts[name] else default
  }

  method CollectCaptures(captures: seq<Capture>) returns (targets: map<string, nat>, counts: map<string, nat>)
    ensures targets == Targets(captures)
    ensures counts.Keys == targets.Keys && forall name :: name in counts ==> counts[name] == CaptureCount(captures, name)
  {
    targets, counts := map[], map[];
    var k := 0;
    while k < |captures|
      invariant k <= |captures| && targets == Targets(captures[..k]) && counts.Keys == targets.Keys
      invariant forall name :: name in counts ==> counts[name] == CaptureCount(captures[..k], name)
      invariant forall name :: name !in counts ==> CaptureCount(captures[..k], name) == 0
    {
      assert captures[..k + 1][..k] == captures[..k];
      var c := captures[k];
      targets := targets[c.name := c.row];
      counts := counts[c.name := Get(counts, c.name, 0) + 1];
      k := k + 1;
    }
    assert captures[..k] == captures;
  }

  /** How often each target is declared among the nodes visited. */
  method CountDeclarations(root: Syntax, targets: map<string, nat>) returns (counts: map<string, nat>)
    ensures counts.Keys <= targets.Keys
    ensures forall name :: name in targets ==> Get(counts, name, 0) == CountDeclares(Popped([root], MAX_NODES), name)
  {
    counts := map[];
    var stack, visited := [root], 0;
    while stack != [] && visited < MAX_NODES
      invariant visited <= MAX_NODES && counts.Keys <= targets.Keys
      invariant forall name :: name in targets ==>
        Get(counts, name, 0) + CountDeclares(Popped(stack, MAX_NODES - visited), name)
        == CountDeclares(Popped([root], MAX_NODES), name)
      decreases MAX_NODES - visited
    {
      var n := stack[|stack| - 1];
      ghost var was, next := stack, stack[..|stack| - 1] + n.children;
      ghost var rest := Popped(next, MAX_NODES - visited - 1);
      assert ([n] + rest)[1..] == rest;
      stack := stack[..|stack| - 1];
      visited := visited + 1;
      var declared := Declares(n);
      if declared.Some? && declared.value in targets {
        counts := counts[declared.value := Get(counts, declared.value, 0) + 1];
      }
      stack := stack + n.children;
      assert Popped(was, MAX_NODES - visited + 1) == [n] + rest;
    }
  }

  /** The targets that are declared more often than they were captured are shadowed somewhere. */
  method DropShadowed(targets: map<string, nat>, declared: map<string, nat>, captured: map<string, nat>)
    returns (kept: map<string, nat>)
    requires declared.Keys <= targets.Keys && captured.Keys == targets.Keys
    ensures kept == map name | name in targets && Get(declared, name, 0) <= captured[name] :: targets[name]
    requires forall name :: name in captured ==> captured[name] >= 1
  {
    var shadowed := set name | name in declared && declared[name] > Get(captured, name, 1);
    kept := targets - shadowed;
  }

  // ---------------------------------------------------------------- edges of one scope

  /** What the visit of `ns` emits for the scope, after `seen`. */
  function EdgesOf(ns: seq<Syntax>, scope: ValueScope, targets: map<string, nat>, ids: seq<Id>, seen: set<Id>): seq<Edge>
    requires scope.row < |ids| && forall name :: name in targets ==> targets[name] < |ids|
  {
    if ns == [] then []
    else
      var name := Names(ns[0]);
      if name.Some? && Wanted(name.value, scope, targets, ids) && ids[targets[name.value]] !in seen
      then [Edge(scope.row, targets[name.value])] + EdgesOf(ns[1..], scope, targets, ids, seen + {ids[targets[name.value]]})
      else EdgesOf(ns[1..], scope, targets, ids, seen)
  }

  /** A target other than the scope itself. */
  predicate Wanted(name: string, scope: ValueScope, targets: map<string, nat>, ids: seq<Id>)
    requires scope.row < |ids| && forall name :: name in targets ==> targets[name] < |ids|
  {
    name in targets && ids[targets[name]] != ids[scope.row] && name != scope.name
  }

  lemma EdgesOfStep(n: Syntax, rest: seq<Syntax>, scope: ValueScope, targets: map<string, nat>, ids: seq<Id>, seen: set<Id>)
    requires scope.row < |ids| && forall name :: name in targets ==> targets[name] < |ids|
    ensures EdgesOf([n] + rest, scope, targets, ids, seen) ==
      var name := Names(n);
      if name.Some? && Wanted(name.value, scope, targets, ids) && ids[targets[name.value]] !in seen
      then [Edge(scope.row, targets[name.value])] + EdgesOf(rest, scope, targets, ids, seen + {ids[targets[name.value]]})
      else EdgesOf(rest, scope, targets, ids, seen)
  {
    hide Names, Wanted;
    assert ([n] + rest)[0] == n && ([n] + rest)[1..] == rest;
  }

  lemma PoppedStep(stack: seq<Syntax>, budget: nat)
    requires stack != [] && budget > 0
    ensures Popped(stack, budget)
         == [stack[|stack| - 1]] + Popped(stack[..|stack| - 1] + stack[|stack| - 1].children, budget - 1)
  {}

  method EmitScope(scope: ValueScope, targets: map<string, nat>, ids: seq<Id>) returns (edges: seq<Edge>)
    requires scope.row < |ids| && forall name :: name in targets ==> targets[name] < |ids|
    ensures edges == EdgesOf(Popped([scope.node], MAX_NODES), scope, targets, ids, {})
  {
    edges := [];
    var seen: set<Id> := {};
    var stack, visited := [scope.node], 0;
    while stack != [] && visited < MAX_NODES
      invariant visited <= MAX_NODES
      invariant edges + EdgesOf(Popped(stack, MAX_NODES - visited), scope, targets, ids, seen)
             == EdgesOf(Popped([scope.node], MAX_NODES), scope, targets, ids, {})
      decreases MAX_NODES - visited
    {
      hide EdgesOf, Popped;
      var n := stack[|stack| - 1];
      ghost var rest := Popped(stack[..|stack| - 1] + n.children, MAX_NODES - visited - 1);
      PoppedStep(stack, MAX_NODES - visited);
      EdgesOfStep(n, rest, scope, targets, ids, seen);
      stack := stack[..|stack| - 1];
      visited := visited + 1;
      var name := Names(n);
      if name.Some? && name.value in targets {
        var target := targets[name.value];
        if ids[target] != ids[scope.row] && name.value != scope.name && ids[target] !in seen {
          Regroup(edges, [Edge(scope.row, target)], EdgesOf(rest, scope, targets, ids, seen + {ids[target]}));
          seen := seen + {ids[target]};
          edges := edges + [Edge(scope.row, target)];
        }
      }
      stack := stack + n.children;
    }
  }

  /** The ids the edges point at. */
  function TargetIds(edges: seq<Edge>, ids: seq<Id>): set<Id>
    requires forall k :: 0 <= k < |edges| ==> edges[k].target < |ids|
  {
    set k | 0 <= k < |edges| :: ids[edges[k].target]
  }

  predicate WellEmitted(edges: seq<Edge>, scope: ValueScope, ids: seq<Id>) {
    && (forall k :: 0 <= k < |edges| ==> edges[k].source == scope.row && edges[k].target < |ids|)
    && (forall j, k :: 0 <= j < k < |edges| ==> ids[edges[j].target] != ids[edges[k].target])
  }

  /** One of the nodes names a wanted target with this id. */
  ghost predicate Reached(ns: seq<Syntax>, id: Id, scope: ValueScope, targets: map<string, nat>, ids: seq<Id>)
    requires scope.row < |ids| && forall name :: name in targets ==> targets[name] < |ids|
  {
    exists name :: Wanted(name, scope, targets, ids) && ids[targets[name]] == id && AnyNames(ns, name)
  }

  predicate Hits(n: Syntax, id: Id, scope: ValueScope, targets: map<string, nat>, ids: seq<Id>)
    requires scope.row < |ids| && forall name :: name in targets ==> targets[name] < |ids|
  {
    var name := Names(n);
    name.Some? && Wanted(name.value, scope, targets, ids) && ids[targets[name.value]] == id
  }

  lemma ReachedStep(n: Syntax, rest: seq<Syntax>, id: Id, scope: ValueScope, targets: map<string, nat>, ids: seq<Id>)
    requires scope.row < |ids| && forall name :: name in targets ==> targets[name] < |ids|
    ensures Reached([n] + rest, id, scope, targets, ids)
       <==> Hits(n, id, scope, targets, ids) || Reached(rest, id, scope, targets, ids)
  {
    hide AnyNames, Wanted, Names;
    forall name ensures AnyNames([n] + rest, name) <==> Names(n) == Some(name) || AnyNames(rest, name) {
      AnyNamesStep(n, rest, name);
    }
    if Hits(n, id, scope, targets, ids) {
      var name := Names(n).value;
      assert Wanted(name, scope, targets, ids) && AnyNames([n] + rest, name);
    }
  }

  lemma TargetIdsStep(e: Edge, rest: seq<Edge>, ids: seq<Id>)
    requires e.target < |ids| && forall k :: 0 <= k < |rest| ==> rest[k].target < |ids|
    ensures TargetIds([e] + rest, ids) == {ids[e.target]} + TargetIds(rest, ids)
  {
    var all := [e] + rest;
    forall id | id in TargetIds(rest, ids) ensures id in TargetIds(all, ids) {
      var k :| 0 <= k < |rest| && ids[rest[k].target] == id;
      assert all[k + 1] == rest[k];
    }
    assert all[0] == e;
  }

  /** One edge per wanted id that the nodes name and that was not seen before. */
  lemma {:induction false} EdgesOfExact(ns: seq<Syntax>, scope: ValueScope, targets: map<string, nat>, ids: seq<Id>, seen: set<Id>)
    requires scope.row < |ids| && forall name :: name in targets ==> targets[name] < |ids|
    ensures var edges := EdgesOf(ns, scope, targets, ids, seen);
            && WellEmitted(edges, scope, ids)
            && forall id :: id in TargetIds(edges, ids) <==> id !in seen && Reached(ns, id, scope, targets, ids)
    decreases |ns|
  {
    hide Reached, Names;
    var edges := EdgesOf(ns, scope, targets, ids, seen);
    if ns == [] {
      forall id ensures !Reached(ns, id, scope, targets, ids) {
        NothingReached(id, scope, targets, ids);
      }
    } else {
      var n, rest := ns[0], ns[1..];
      assert [n] + rest == ns;
      forall id ensures Reached(ns, id, scope, targets, ids)
                   <==> Hits(n, id, scope, targets, ids) || Reached(rest, id, scope, targets, ids) {
        ReachedStep(n, rest, id, scope, targets, ids);
      }
      var name := Names(n);
      if name.Some? && Wanted(name.value, scope, targets, ids) && ids[targets[name.value]] !in seen {
        var id := ids[targets[name.value]];
        EdgesOfExact(rest, scope, targets, ids, seen + {id});
        var more := EdgesOf(rest, scope, targets, ids, seen + {id});
        TargetIdsStep(Edge(scope.row, targets[name.value]), more, ids);
        assert forall k :: 0 <= k < |more| ==> ids[more[k].target] in TargetIds(more, ids);
      } else {
        EdgesOfExact(rest, scope, targets, ids, seen);
      }
    }
  }

  lemma NothingReached(id: Id, scope: ValueScope, targets: map<string, nat>, ids: seq<Id>)
    requires scope.row < |ids| && forall name :: name in targets ==> targets[name] < |ids|
    ensures !Reached([], id, scope, targets, ids)
  {}

  // ---------------------------------------------------------------- the flush

  /** What a scope should be linked to: the wanted ids named anywhere below it. */
  ghost predicate ShouldLink(id: Id, scope: ValueScope, targets: map<string, nat>, ids: seq<Id>)
    requires scope.row < |ids| && forall name :: name in targets ==> targets[name] < |ids|
  {
    exists name :: Wanted(name, scope, targets, ids) && ids[targets[name]] == id && Mentions(scope.node, name)
  }

  /**
   * The edges of one scope: distinct target ids, none that the subtree does
   * not name, and within the visit budget all of them.
   */
  lemma ScopeLinksExact(scope: ValueScope, targets: map<string, nat>, ids: seq<Id>)
    requires scope.row < |ids| && forall name :: name in targets ==> targets[name] < |ids|
    ensures var edges := EdgesOf(Popped([scope.node], MAX_NODES), scope, targets, ids, {});
            && WellEmitted(edges, scope, ids)
            && (forall id :: id in TargetIds(edges, ids) ==> ShouldLink(id, scope, targets, ids))
            && (Size(scope.node) <= MAX_NODES ==>
                  forall id :: ShouldLink(id, scope, targets, ids) ==> id in TargetIds(edges, ids))
  {
    hide Popped, AnyNames, Wanted, WellEmitted, TargetIds, EdgesOf;
    var ns := Popped([scope.node], MAX_NODES);
    EdgesOfExact(ns, scope, targets, ids, {});
    assert [scope.node][..0] == [];
    assert SizeAll([scope.node]) == Size(scope.node);
    forall name
      ensures AnyNames(ns, name) ==> Mentions(scope.node, name)
      ensures Size(scope.node) <= MAX_NODES ==> (AnyNames(ns, name) <==> Mentions(scope.node, name))
    {
      PoppedVisits([scope.node], MAX_NODES, name);
      assert MentionsAll([scope.node], name) <==> Mentions(scope.node, name);
    }
  }

  /** The targets that survive shadowing. */
  function Kept(root: Syntax, captures: seq<Capture>): map<string, nat> {
    var targets := Targets(captures);
    map name | name in targets && CountDeclares(Popped([root], MAX_NODES), name) <= CaptureCount(captures, name)
      :: targets[name]
  }

  /**
   * Within the visit budget a captured name is dropped exactly when it is
   * declared more often than it was captured; beyond it, only then.
   */
  lemma KeptExact(root: Syntax, captures: seq<Capture>, name: string)
    requires name in Targets(captures)
    ensures name !in Kept(root, captures) ==> Declarations(root, name) > CaptureCount(captures, name)
    ensures Size(root) <= MAX_NODES ==>
      (name !in Kept(root, captures) <==> Declarations(root, name) > CaptureCount(captures, name))
  {
    hide Popped;
    assert [root][..0] == [];
    assert SizeAll([root]) == Size(root) && DeclarationsAll([root], name) == Declarations(root, name);
    PoppedVisits([root], MAX_NODES, name);
  }

  /** The edges of all scopes, in order. */
  function AllEdges(scopes: seq<ValueScope>, targets: map<string, nat>, ids: seq<Id>): seq<Edge>
    requires InRange(scopes, targets, ids)
  {
    if scopes == [] then []
    else
      var n := |scopes| - 1;
      AllEdges(scopes[..n], targets, ids) + EdgesOf(Popped([scopes[n].node], MAX_NODES), scopes[n], targets, ids, {})
  }

  predicate InRange(scopes: seq<ValueScope>, targets: map<string, nat>, ids: seq<Id>) {
    && (forall k :: 0 <= k < |scopes| ==> scopes[k].row < |ids|)
    && (forall name :: name in targets ==> targets[name] < |ids|)
  }

  // ---------------------------------------------------------------- what the flush means

  /** The latest capture of the name is for this row. */
  ghost predicate IsLatest(captures: seq<Capture>, name: string, row: nat) {
    exists k :: 0 <= k < |captures| && captures[k] == Capture(name, row) && forall j :: k < j < |captures| ==> captures[j].name != name
  }

  /** The file declares the name no more often than it was captured. */
  ghost predicate Unshadowed(root: Syntax, captures: seq<Capture>, name: string) {
    Declarations(root, name) <= |set k: nat | k < |captures| && captures[k].name == name|
  }

  /** The scope should refer to the row: the latest one captured under a name its subtree mentions. */
  ghost predicate ShouldRefer(s: ValueScope, name: string, row: nat, captures: seq<Capture>, ids: seq<Id>) {
    && IsLatest(captures, name, row) && Mentions(s.node, name) && name != s.name
    && s.row < |ids| && row < |ids| && ids[row] != ids[s.row]
  }

  /** Some scope should have the edge, by a name that is, in a tree within the budget, not shadowed. */
  ghost predicate Justified(e: Edge, root: Syntax, scopes: seq<ValueScope>, captures: seq<Capture>, ids: seq<Id>) {
    exists s, name :: s in scopes && e.source == s.row && ShouldRefer(s, name, e.target, captures, ids)
                   && (Size(root) <= 20000 ==> Unshadowed(root, captures, name))
  }

  /** A scope within the budget has every edge it should have, one for all rows of an id. */
  ghost predicate Complete(edges: seq<Edge>, root: Syntax, scopes: seq<ValueScope>, captures: seq<Capture>, ids: seq<Id>) {
    forall s, name, row: nat ::
      s in scopes && ShouldRefer(s, name, row, captures, ids) && Unshadowed(root, captures, name) && Size(s.node) <= 20000 ==>
        exists e <- edges :: e.source == s.row && e.target < |ids| && ids[e.target] == ids[row]
  }

  method Flush(root: Syntax, scopes: seq<ValueScope>, captures: seq<Capture>, ids: seq<Id>, enabled: bool)
    returns (edges: seq<Edge>)
    requires forall k :: 0 <= k < |scopes| ==> scopes[k].row < |ids|
    requires forall k :: 0 <= k < |captures| ==> captures[k].row < |ids|
    ensures InRange(scopes, Kept(root, captures), ids)
    ensures edges == if enabled then AllEdges(scopes, Kept(root, captures), ids) else []
    ensures forall e <- edges :: Justified(e, root, scopes, captures, ids)
    ensures enabled ==> Complete(edges, root, scopes, captures, ids)
  {
    hide Justified, Complete, AllEdges, CountDeclares, Popped, Get;
    FlushMeans(root, scopes, captures, ids);
    TargetsInRange(captures, ids);
    edges := [];
    if !enabled {
      return;
    }
    var targets, captured := CollectCaptures(captures);
    if targets == map[] || scopes == [] {
      NoEdges(scopes, Kept(root, captures), ids);
      return;
    }
    var declared := CountDeclarations(root, targets);
    forall name | name in captured ensures captured[name] >= 1 {
      CapturedOnce(captures, name);
    }
    targets := DropShadowed(targets, declared, captured);
    assert targets == Kept(root, captures);
    if targets == map[] {
      NoEdges(scopes, targets, ids);
      return;
    }
    edges := EmitScopes(scopes, targets, ids);
  }

  method EmitScopes(scopes: seq<ValueScope>, targets: map<string, nat>, ids: seq<Id>) returns (edges: seq<Edge>)
    requires InRange(scopes, targets, ids)
    ensures edges == AllEdges(scopes, targets, ids)
  {
    hide EdgesOf, Popped;
    edges := [];
    var k := 0;
    while k < |scopes|
      invariant k <= |scopes| && edges == AllEdges(scopes[..k], targets, ids)
    {
      assert scopes[..k + 1][..k] == scopes[..k];
      var more := EmitScope(scopes[k], targets, ids);
      edges := edges + more;
      k := k + 1;
    }
    assert scopes[..k] == scopes;
  }

  lemma {:induction false} TargetsInRange(captures: seq<Capture>, ids: seq<Id>)
    requires forall k :: 0 <= k < |captures| ==> captures[k].row < |ids|
    ensures forall name :: name in Targets(captures) ==> Targets(captures)[name] < |ids|
  {
    if captures != [] {
      TargetsInRange(captures[..|captures| - 1], ids);
    }
  }

  lemma {:induction false} CapturedOnce(captures: seq<Capture>, name: string)
    requires name in Targets(captures)
    ensures CaptureCount(captures, name) >= 1
  {
    if captures[|captures| - 1].name != name {
      CapturedOnce(captures[..|captures| - 1], name);
    }
  }

  lemma {:induction false} NoEdges(scopes: seq<ValueScope>, targets: map<string, nat>, ids: seq<Id>)
    requires InRange(scopes, targets, ids) && (targets == map[] || scopes == [])
    ensures AllEdges(scopes, targets, ids) == []
  {
    if scopes != [] {
      var n := |scopes| - 1;
      NoEdges(scopes[..n], targets, ids);
      NothingWanted(Popped([scopes[n].node], MAX_NODES), scopes[n], targets, ids);
    }
  }

  lemma {:induction false} NothingWanted(ns: seq<Syntax>, scope: ValueScope, targets: map<string, nat>, ids: seq<Id>)
    requires scope.row < |ids| && targets == map[]
    ensures EdgesOf(ns, scope, targets, ids, {}) == []
    decreases |ns|
  {
    if ns != [] {
      NothingWanted(ns[1..], scope, targets, ids);
    }
  }

  lemma {:induction false} TargetIsLatest(captures: seq<Capture>, name: string)
    requires name in Targets(captures)
    ensures IsLatest(captures, name, Targets(captures)[name])
    decreases |captures|
  {
    hide IsLatest;
    var n := |captures| - 1;
    if captures[n].name == name {
      LastIsLatest(captures);
    } else {
      TargetIsLatest(captures[..n], name);
      StillLatest(captures[..n], captures[n], name, Targets(captures[..n])[name]);
      assert captures[..n] + [captures[n]] == captures;
    }
  }

  lemma LastIsLatest(captures: seq<Capture>)
    requires captures != []
    ensures var c := captures[|captures| - 1]; IsLatest(captures, c.name, c.row)
  {}

  lemma StillLatest(captures: seq<Capture>, c: Capture, name: string, row: nat)
    requires IsLatest(captures, name, row) && c.name != name
    ensures IsLatest(captures + [c], name, row)
  {
    var k :| 0 <= k < |captures| && captures[k] == Capture(name, row) && forall j :: k < j < |captures| ==> captures[j].name != name;
    assert (captures + [c])[k] == captures[k];
  }

  lemma OneLatest(captures: seq<Capture>, name: string, row: nat)
    requires IsLatest(captures, name, row)
    ensures name in Targets(captures) && Targets(captures)[name] == row
  {
    TargetIsLatest(captures, name);
  }

  lemma {:induction false} CaptureCountIsSize(captures: seq<Capture>, name: string)
    ensures CaptureCount(captures, name) == |set k: nat | k < |captures| && captures[k].name == name|
    decreases |captures|
  {
    var now := set k: nat | k < |captures| && captures[k].name == name;
    if captures == [] {
      assert now == {};
    } else {
      var n := |captures| - 1;
      CaptureCountIsSize(captures[..n], name);
      var was := set k: nat | k < |captures[..n]| && captures[..n][k].name == name;
      assert now == was + if captures[n].name == name then {n} else {};
    }
  }

  lemma KeptMeans(root: Syntax, captures: seq<Capture>, name: string)
    requires name in Targets(captures)
    ensures Unshadowed(root, captures, name) ==> name in Kept(root, captures)
    ensures Size(root) <= 20000 && name in Kept(root, captures) ==> Unshadowed(root, captures, name)
  {
    hide Size, Declarations, Targets;
    KeptExact(root, captures, name);
    CaptureCountIsSize(captures, name);
  }

  /** An edge of the flush comes from a scope that should have it. */
  lemma {:induction false} EdgesJustified(
      root: Syntax, all: seq<ValueScope>, scopes: seq<ValueScope>, captures: seq<Capture>, ids: seq<Id>)
    requires InRange(scopes, Kept(root, captures), ids) && forall s <- scopes :: s in all
    ensures forall e <- AllEdges(scopes, Kept(root, captures), ids) :: Justified(e, root, all, captures, ids)
    decreases |scopes|
  {
    hide Kept, EdgesOf, Popped, Justified;
    if scopes != [] {
      var n, targets := |scopes| - 1, Kept(root, captures);
      EdgesJustified(root, all, scopes[..n], captures, ids);
      var more := EdgesOf(Popped([scopes[n].node], MAX_NODES), scopes[n], targets, ids, {});
      forall e | e in more ensures Justified(e, root, all, captures, ids) {
        ScopeEdgeJustified(root, all, scopes[n], captures, ids, e);
      }
    }
  }

  lemma ScopeEdgeJustified(
      root: Syntax, all: seq<ValueScope>, s: ValueScope, captures: seq<Capture>, ids: seq<Id>, e: Edge)
    requires s in all && s.row < |ids|
    requires forall name :: name in Kept(root, captures) ==> Kept(root, captures)[name] < |ids|
    requires e in EdgesOf(Popped([s.node], MAX_NODES), s, Kept(root, captures), ids, {})
    ensures Justified(e, root, all, captures, ids)
  {
    hide EdgesOf, Popped, Mentions, Size, Unshadowed, IsLatest;
    var targets := Kept(root, captures);
    var name := EdgeNamed(Popped([s.node], MAX_NODES), s, targets, ids, {}, e);
    PoppedVisits([s.node], MAX_NODES, name);
    MentionedAlone(s.node, name);
    TargetIsLatest(captures, name);
    KeptMeans(root, captures, name);
    assert ShouldRefer(s, name, e.target, captures, ids);
  }

  lemma MentionedAlone(n: Syntax, name: string)
    ensures MentionsAll([n], name) <==> Mentions(n, name)
    ensures SizeAll([n]) == Size(n)
  {
    assert [n][..0] == [];
  }

  /** The name by which the visit came to an edge. */
  lemma {:induction false} EdgeNamed(
      ns: seq<Syntax>, s: ValueScope, targets: map<string, nat>, ids: seq<Id>, seen: set<Id>, e: Edge) returns (name: string)
    requires s.row < |ids| && forall name :: name in targets ==> targets[name] < |ids|
    requires e in EdgesOf(ns, s, targets, ids, seen)
    ensures Wanted(name, s, targets, ids) && AnyNames(ns, name) && e == Edge(s.row, targets[name])
    decreases |ns|
  {
    hide AnyNames;
    assert ns == [ns[0]] + ns[1..];
    var here := Names(ns[0]);
    if here.Some? && Wanted(here.value, s, targets, ids) && ids[targets[here.value]] !in seen {
      if e == Edge(s.row, targets[here.value]) {
        name := here.value;
      } else {
        name := EdgeNamed(ns[1..], s, targets, ids, seen + {ids[targets[here.value]]}, e);
      }
    } else {
      name := EdgeNamed(ns[1..], s, targets, ids, seen, e);
    }
    AnyNamesStep(ns[0], ns[1..], name);
  }

  lemma {:induction false} InAllEdges(scopes: seq<ValueScope>, targets: map<string, nat>, ids: seq<Id>, s: ValueScope, e: Edge)
    requires InRange(scopes, targets, ids) && s in scopes && s.row < |ids|
    requires e in EdgesOf(Popped([s.node], MAX_NODES), s, targets, ids, {})
    ensures e in AllEdges(scopes, targets, ids)
    decreases |scopes|
  {
    hide EdgesOf, Popped;
    var n := |scopes| - 1;
    assert scopes == scopes[..n] + [scopes[n]];
    if s != scopes[n] {
      InAllEdges(scopes[..n], targets, ids, s, e);
    }
  }

  /**
   * Every edge runs from a scope's row to the row of the latest capture of a
   * name the scope mentions; and within the budget every unshadowed name a
   * scope mentions, other than its own name and id, has its edge.
   */
  lemma FlushMeans(root: Syntax, scopes: seq<ValueScope>, captures: seq<Capture>, ids: seq<Id>)
    requires forall k :: 0 <= k < |scopes| ==> scopes[k].row < |ids|
    requires forall k :: 0 <= k < |captures| ==> captures[k].row < |ids|
    ensures InRange(scopes, Kept(root, captures), ids)
    ensures forall e <- AllEdges(scopes, Kept(root, captures), ids) :: Justified(e, root, scopes, captures, ids)
    ensures Complete(AllEdges(scopes, Kept(root, captures), ids), root, scopes, captures, ids)
  {
    hide Justified, Kept, Unshadowed, Declarations, Size, Mentions, IsLatest, AllEdges;
    TargetsInRange(captures, ids);
    KeptAreTargets(root, captures);
    EdgesJustified(root, scopes, scopes, captures, ids);
    var targets := Kept(root, captures);
    forall s, name, row: nat |
      s in scopes && ShouldRefer(s, name, row, captures, ids) && Unshadowed(root, captures, name) && Size(s.node) <= 20000
      ensures exists e <- AllEdges(scopes, targets, ids) :: e.source == s.row && e.target < |ids| && ids[e.target] == ids[row]
    {
      OneLatest(captures, name, row);
      KeptMeans(root, captures, name);
      var e := ScopeHasEdge(s, name, targets, ids);
      InAllEdges(scopes, targets, ids, s, e);
    }
  }

  lemma KeptAreTargets(root: Syntax, captures: seq<Capture>)
    ensures forall name :: name in Kept(root, captures) ==> name in Targets(captures) && Kept(root, captures)[name] == Targets(captures)[name]
  {}

  lemma ScopeHasEdge(s: ValueScope, name: string, targets: map<string, nat>, ids: seq<Id>) returns (e: Edge)
    requires s.row < |ids| && forall name :: name in targets ==> targets[name] < |ids|
    requires Wanted(name, s, targets, ids) && Mentions(s.node, name) && Size(s.node) <= MAX_NODES
    ensures e in EdgesOf(Popped([s.node], MAX_NODES), s, targets, ids, {})
    ensures e.source == s.row && e.target < |ids| && ids[e.target] == ids[targets[name]]
  {
    hide EdgesOf, Popped, Mentions, Size;
    ScopeLinksExact(s, targets, ids);
    assert ShouldLink(ids[targets[name]], s, targets, ids);
    var edges := EdgesOf(Popped([s.node], MAX_NODES), s, targets, ids, {});
    var k :| 0 <= k < |edges| && ids[edges[k].target] == ids[targets[name]];
    e := edges[k];
  }
}
