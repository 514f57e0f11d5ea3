// The bounded scan for indexed sub-projects, and the front-load plan over its result.

module SubprojectScan {
  import opened Strings
  import opened Wrappers

  // ---------------------------------------------------------------- directory trees

  /** A directory entry; files have no entries of their own. An unreadable directory lists nothing. */
  datatype Entry = Entry(name: string, isDirectory: bool, indexed: bool, readable: bool, entries: seq<Entry>)

  type Path = seq<string>

  const SKIP: set<string> := {
    "node_modules", ".git", ".svn", ".hg", "dist", "build", "out", "target",
    "vendor", "bin", "obj", ".next", ".nuxt", ".svelte-kit", ".cache", "coverage",
    ".venv", "venv", "__pycache__", ".turbo", ".idea", ".vscode", "tmp", "temp"
  }

  const DEFAULT_MAX_DEPTH: nat := 4
  const DEFAULT_MAX: nat := 64

  predicate Skipped(name: string) {
    (name != "" && name[0] == '.') || name in SKIP
  }

  /** The scan goes on to this entry. */
  predicate Visited(e: Entry) { e.isDirectory && !Skipped(e.name) }

  // ---------------------------------------------------------------- the scan without a count limit

  /** What the walk of `dir`, at this depth, finds from entry `i` on. */
  function FoundFrom(dir: Entry, at: Path, depth: nat, maxDepth: nat, i: nat): seq<Path>
    decreases dir, |dir.entries| - i
  {
    if i >= |dir.entries| then []
    else
      var e := dir.entries[i];
      (if !Visited(e) then []
       else if e.indexed then [at + [e.name]]
       else Found(e, at + [e.name], depth + 1, maxDepth))
      + FoundFrom(dir, at, depth, maxDepth, i + 1)
  }

  function Found(dir: Entry, at: Path, depth: nat, maxDepth: nat): seq<Path>
    decreases dir, |dir.entries| + 1
  {
    if depth > maxDepth || !dir.readable then [] else FoundFrom(dir, at, depth, maxDepth, 0)
  }

  function OfEntry(e: Entry, at: Path, depth: nat, maxDepth: nat): seq<Path> {
    if !Visited(e) then []
    else if e.indexed then [at + [e.name]]
    else Found(e, at + [e.name], depth + 1, maxDepth)
  }

  lemma FoundStep(dir: Entry, at: Path, depth: nat, maxDepth: nat, i: nat)
    requires i < |dir.entries|
    ensures FoundFrom(dir, at, depth, maxDepth, i)
         == OfEntry(dir.entries[i], at, depth, maxDepth) + FoundFrom(dir, at, depth, maxDepth, i + 1)
    ensures [] + FoundFrom(dir, at, depth, maxDepth, i + 1) == FoundFrom(dir, at, depth, maxDepth, i + 1)
  {}

  function Take(s: seq<Path>, n: nat): (t: seq<Path>)
    ensures |t| <= n && t <= s
  {
    if |s| <= n then s else s[..n]
  }

  lemma TakeTwice(a: seq<Path>, b: seq<Path>, c: seq<Path>, n: nat)
    requires |a| <= n
    ensures Take(Take(a + b, n) + c, n) == Take(a + (b + c), n)
  {
    assert (a + b) + c == a + (b + c);
    if |a + b| > n {
      assert Take(a + (b + c), n) == ((a + b) + c)[..n];
      assert ((a + b)[..n] + c)[..n] == ((a + b) + c)[..n];
    }
  }

  // ---------------------------------------------------------------- the scan

  method Walk(dir: Entry, at: Path, depth: nat, maxDepth: nat, max: nat, sofar: seq<Path>) returns (out: seq<Path>)
    requires |sofar| <= max
    ensures out == Take(sofar + Found(dir, at, depth, maxDepth), max)
    decreases dir, 0
  {
    out := sofar;
    if |out| >= max || depth > maxDepth {
      assert sofar + [] == sofar;
      return;
    }
    if !dir.readable {
      assert sofar + [] == sofar;
      return;
    }
    var i := 0;
    while i < |dir.entries|
      invariant i <= |dir.entries| && |out| <= max
      invariant Take(out + FoundFrom(dir, at, depth, maxDepth, i), max) == Take(sofar + Found(dir, at, depth, maxDepth), max)
    {
      if |out| >= max {
        assert Take(out + FoundFrom(dir, at, depth, maxDepth, i), max) == out;
        return;
      }
      hide FoundFrom, Found, Take, OfEntry;
      FoundStep(dir, at, depth, maxDepth, i);
      TakeTwice(out, OfEntry(dir.entries[i], at, depth, maxDepth), FoundFrom(dir, at, depth, maxDepth, i + 1), max);
      out := VisitEntry(dir.entries[i], at, depth, maxDepth, max, out);
      i := i + 1;
    }
    assert out + [] == out;
  }

  /** One entry: listed if indexed, else walked. */
  method VisitEntry(e: Entry, at: Path, depth: nat, maxDepth: nat, max: nat, sofar: seq<Path>) returns (out: seq<Path>)
    requires |sofar| < max
    ensures out == Take(sofar + OfEntry(e, at, depth, maxDepth), max)
    decreases e, 1
  {
    out := sofar;
    if !e.isDirectory {
      assert sofar + [] == sofar;
      return;
    }
    if Skipped(e.name) {
      assert sofar + [] == sofar;
      return;
    }
    var child := at + [e.name];
    if e.indexed {
      out := out + [child];
      return;
    }
    out := Walk(e, child, depth + 1, maxDepth, max, out);
  }

  /** With a limit of `max`, the first `max` of the depth-first list; nothing under an unsafe root. */
  method FindIndexedSubprojectRoots(root: Entry, safe: bool, maxDepth: nat := DEFAULT_MAX_DEPTH, max: nat := DEFAULT_MAX)
    returns (out: seq<Path>)
    ensures out == if safe then Take(Found(root, [], 1, maxDepth), max) else []
  {
    if !safe {
      return [];
    }
    out := Walk(root, [], 1, maxDepth, max, []);
    assert [] + Found(root, [], 1, maxDepth) == Found(root, [], 1, maxDepth);
  }

  // ---------------------------------------------------------------- what is found

  /** No directory lists a name twice. */
  ghost predicate Distinct(dir: Entry)
    decreases dir
  {
    && (forall j, k :: 0 <= j < k < |dir.entries| ==> dir.entries[j].name != dir.entries[k].name)
    && (forall k :: 0 <= k < |dir.entries| ==> Distinct(dir.entries[k]))
  }

  /** The entry of that name. */
  function Child(dir: Entry, name: string, i: nat): (c: Option<Entry>)
    ensures c.Some? ==> exists k :: i <= k < |dir.entries| && dir.entries[k] == c.value && c.value.name == name
    decreases |dir.entries| - i
  {
    if i >= |dir.entries| then None
    else if dir.entries[i].name == name then Some(dir.entries[i])
    else Child(dir, name, i + 1)
  }

  lemma {:induction false} ChildIs(dir: Entry, k: nat, i: nat)
    requires Distinct(dir) && i <= k < |dir.entries|
    ensures Child(dir, dir.entries[k].name, i) == Some(dir.entries[k])
    decreases k - i
  {
    if i < k {
      ChildIs(dir, k, i + 1);
    }
  }

  /** Following a path down from a directory. */
  function Resolve(dir: Entry, path: Path): Option<Entry>
    decreases |path|
  {
    if path == [] then Some(dir)
    else match Child(dir, path[0], 0)
      case None => None
      case Some(c) => Resolve(c, path[1..])
  }

  /** A proper step on the way: a directory the scan descends through. */
  predicate PassedThrough(root: Entry, path: Path) {
    match Resolve(root, path)
    case None => false
    case Some(d) => d.isDirectory && !d.indexed && d.readable
  }

  predicate IsIndexed(root: Entry, path: Path) {
    match Resolve(root, path)
    case None => false
    case Some(d) => d.isDirectory && d.indexed
  }

  /**
   * The directories asked for: indexed, not deeper than allowed, no skipped or
   * dotted name on the way, and no indexed or unreadable directory above them
   * below the root.
   */
  ghost predicate Wanted(root: Entry, path: Path, depth: nat, maxDepth: nat) {
    && path != [] && depth + |path| - 1 <= maxDepth
    && root.readable
    && IsIndexed(root, path)
    && NoneSkipped(path)
    && AllPassed(root, path)
  }

  ghost predicate NoneSkipped(path: Path) { forall k :: 0 <= k < |path| ==> !Skipped(path[k]) }

  ghost predicate AllPassed(root: Entry, path: Path) { forall k :: 0 < k < |path| ==> PassedThrough(root, path[..k]) }

  lemma NoneSkippedStep(path: Path)
    requires path != []
    ensures NoneSkipped(path) <==> !Skipped(path[0]) && NoneSkipped(path[1..])
  {
    hide Skipped;
    if !Skipped(path[0]) && NoneSkipped(path[1..]) {
      forall k | 0 <= k < |path| ensures !Skipped(path[k]) {
        if k > 0 {
          assert path[k] == path[1..][k - 1];
        }
      }
    }
  }

  lemma AllPassedStep(root: Entry, c: Entry, path: Path)
    requires |path| > 1 && Resolve(root, path[..1]) == Some(c)
    requires forall k :: 0 < k <= |path| ==> Resolve(root, path[..k]) == Resolve(c, path[1..][..k - 1])
    ensures AllPassed(root, path) <==> PassedThrough(root, path[..1]) && AllPassed(c, path[1..])
  {
    hide Resolve;
    var rest := path[1..];
    if AllPassed(root, path) {
      assert PassedThrough(root, path[..1]);
      forall k | 0 < k < |rest| ensures PassedThrough(c, rest[..k]) {
        assert PassedThrough(root, path[..k + 1]);
      }
    }
    if PassedThrough(root, path[..1]) && AllPassed(c, rest) {
      forall k | 0 < k < |path| ensures PassedThrough(root, path[..k]) {
        if k > 1 {
          assert PassedThrough(c, rest[..k - 1]);
        }
      }
    }
  }

  /** One step of the definition, from the first name on. */
  lemma WantedStep(root: Entry, path: Path, depth: nat, maxDepth: nat)
    requires path != []
    ensures Wanted(root, path, depth, maxDepth) <==>
      && depth <= maxDepth && root.readable && !Skipped(path[0])
      && Child(root, path[0], 0).Some?
      && var c := Child(root, path[0], 0).value;
         c.isDirectory && (if |path| == 1 then c.indexed else !c.indexed && Wanted(c, path[1..], depth + 1, maxDepth))
  {
    var child := Child(root, path[0], 0);
    if child.Some? {
      var c := child.value;
      forall k | 0 < k <= |path| ensures Resolve(root, path[..k]) == Resolve(c, path[1..][..k - 1]) {
        assert path[..k][0] == path[0] && path[..k][1..] == path[1..][..k - 1];
      }
      assert path[..|path|] == path && path[1..][..|path| - 1] == path[1..];
      if |path| > 1 {
        assert path[1..][..0] == [];
        assert Resolve(root, path[..1]) == Some(c);
        WantedFirst(root, c, path, depth, maxDepth);
      }
    }
  }

  lemma WantedFirst(root: Entry, c: Entry, path: Path, depth: nat, maxDepth: nat)
    requires |path| > 1 && Resolve(root, path[..1]) == Some(c)
    requires forall k :: 0 < k <= |path| ==> Resolve(root, path[..k]) == Resolve(c, path[1..][..k - 1])
    ensures Wanted(root, path, depth, maxDepth) <==>
      root.readable && !Skipped(path[0]) && c.isDirectory && !c.indexed && Wanted(c, path[1..], depth + 1, maxDepth)
  {
    hide AllPassed, NoneSkipped, Resolve, Skipped;
    var rest := path[1..];
    assert path[..|path|] == path && rest[..|rest|] == rest;
    assert Resolve(root, path) == Resolve(c, rest);
    NoneSkippedStep(path);
    AllPassedStep(root, c, path);
  }

  /** What entry `i` contributes. */
  ghost predicate FromEntry(dir: Entry, i: nat, rel: Path, depth: nat, maxDepth: nat)
    requires i < |dir.entries|
  {
    var e := dir.entries[i];
    && Visited(e) && rel != [] && rel[0] == e.name
    && (if e.indexed then |rel| == 1 else |rel| > 1 && depth < maxDepth && Wanted(e, rel[1..], depth + 1, maxDepth))
  }

  ghost predicate FromSome(dir: Entry, i: nat, rel: Path, depth: nat, maxDepth: nat) {
    exists k: nat :: i <= k < |dir.entries| && FromEntry(dir, k, rel, depth, maxDepth)
  }

  lemma FromFirst(dir: Entry, i: nat, rel: Path, depth: nat, maxDepth: nat)
    ensures FromSome(dir, i, rel, depth, maxDepth)
       <==> i < |dir.entries| && (FromEntry(dir, i, rel, depth, maxDepth) || FromSome(dir, i + 1, rel, depth, maxDepth))
  {
    hide FromEntry;
  }

  lemma {:induction false} FoundFromExact(dir: Entry, at: Path, depth: nat, maxDepth: nat, i: nat, rel: Path)
    requires Distinct(dir) && depth <= maxDepth
    ensures at + rel in FoundFrom(dir, at, depth, maxDepth, i) <==> FromSome(dir, i, rel, depth, maxDepth)
    decreases dir, |dir.entries| - i
  {
    hide FromEntry, OfEntry, FromSome;
    FromFirst(dir, i, rel, depth, maxDepth);
    if i < |dir.entries| {
      FoundStep(dir, at, depth, maxDepth, i);
      FoundFromExact(dir, at, depth, maxDepth, i + 1, rel);
      EntryExact(dir, at, depth, maxDepth, i, rel);
    }
  }

  lemma {:induction false} EntryExact(dir: Entry, at: Path, depth: nat, maxDepth: nat, i: nat, rel: Path)
    requires Distinct(dir) && depth <= maxDepth && i < |dir.entries|
    ensures at + rel in OfEntry(dir.entries[i], at, depth, maxDepth) <==> FromEntry(dir, i, rel, depth, maxDepth)
    decreases dir, 0
  {
    var e := dir.entries[i];
    if Visited(e) && e.indexed {
      if at + rel == at + [e.name] {
        SameRest(at, rel, [e.name]);
      }
      if FromEntry(dir, i, rel, depth, maxDepth) {
        assert rel == [e.name];
      }
    } else if Visited(e) {
      if at + rel in Found(e, at + [e.name], depth + 1, maxDepth) {
        FoundBelow(e, at + [e.name], depth + 1, maxDepth, at + rel);
        StartsWith(at, e.name, rel);
      }
      if rel != [] && rel[0] == e.name {
        assert at + rel == (at + [e.name]) + rel[1..];
        FoundExact(e, at + [e.name], depth + 1, maxDepth, rel[1..]);
      }
    }
  }

  lemma StartsWith(at: Path, name: string, rel: Path)
    requires at + [name] < at + rel
    ensures rel != [] && rel[0] == name
  {
    assert (at + rel)[|at|] == (at + [name])[|at|];
  }

  lemma SameRest(at: Path, a: Path, b: Path)
    requires at + a == at + b
    ensures a == b
  {
    assert a == (at + a)[|at|..] && b == (at + b)[|at|..];
  }

  /** Whatever is found below a directory begins with the directory's path. */
  lemma {:induction false} FoundBelow(dir: Entry, at: Path, depth: nat, maxDepth: nat, p: Path)
    requires p in Found(dir, at, depth, maxDepth)
    ensures at < p
    decreases dir, |dir.entries| + 1
  {
    FoundFromBelow(dir, at, depth, maxDepth, 0, p);
  }

  lemma {:induction false} FoundFromBelow(dir: Entry, at: Path, depth: nat, maxDepth: nat, i: nat, p: Path)
    requires p in FoundFrom(dir, at, depth, maxDepth, i)
    ensures at < p
    decreases dir, |dir.entries| - i
  {
    if i < |dir.entries| {
      var e := dir.entries[i];
      if p in FoundFrom(dir, at, depth, maxDepth, i + 1) {
        FoundFromBelow(dir, at, depth, maxDepth, i + 1, p);
      } else if Visited(e) && !e.indexed {
        FoundBelow(e, at + [e.name], depth + 1, maxDepth, p);
      }
    }
  }

  /** The unlimited scan finds exactly the directories asked for. */
  lemma {:induction false} FoundExact(dir: Entry, at: Path, depth: nat, maxDepth: nat, rel: Path)
    requires Distinct(dir)
    ensures at + rel in Found(dir, at, depth, maxDepth) <==> Wanted(dir, rel, depth, maxDepth)
    decreases dir, |dir.entries| + 1
  {
    if rel != [] {
      WantedStep(dir, rel, depth, maxDepth);
    }
    if depth <= maxDepth && dir.readable {
      FoundFromExact(dir, at, depth, maxDepth, 0, rel);
      if k :| 0 <= k < |dir.entries| && FromEntry(dir, k, rel, depth, maxDepth) {
        ChildIs(dir, k, 0);
      }
      if Wanted(dir, rel, depth, maxDepth) {
        var c := Child(dir, rel[0], 0).value;
        var k :| 0 <= k < |dir.entries| && dir.entries[k] == c && c.name == rel[0];
        assert FromEntry(dir, k, rel, depth, maxDepth);
      }
    }
  }

  /** The scan of a root: with no count limit, a path is listed exactly if it is wanted. */
  lemma ScanExact(root: Entry, maxDepth: nat, p: Path)
    requires Distinct(root)
    ensures p in Found(root, [], 1, maxDepth) <==> Wanted(root, p, 1, maxDepth)
  {
    assert [] + p == p;
    FoundExact(root, [], 1, maxDepth, p);
  }

  /** No listed project lies inside another. */
  lemma ScanIsAntichain(root: Entry, maxDepth: nat, p: Path, q: Path)
    requires Distinct(root) && p in Found(root, [], 1, maxDepth) && q in Found(root, [], 1, maxDepth)
    ensures !(p < q)
  {
    ScanExact(root, maxDepth, p);
    ScanExact(root, maxDepth, q);
    if p < q {
      assert q[..|p|] == p;
      AncestorNotIndexed(root, maxDepth, q, |p|);
    }
  }

  lemma AncestorNotIndexed(root: Entry, maxDepth: nat, q: Path, k: nat)
    requires Wanted(root, q, 1, maxDepth) && 0 < k < |q|
    ensures !IsIndexed(root, q[..k])
  {
    assert PassedThrough(root, q[..k]);
  }

  ghost predicate NoRepeats(paths: seq<Path>) {
    forall j, k :: 0 <= j < k < |paths| ==> paths[j] != paths[k]
  }

  /** What an entry contributes begins with its path. */
  lemma OfEntryStarts(e: Entry, at: Path, depth: nat, maxDepth: nat, p: Path)
    requires p in OfEntry(e, at, depth, maxDepth)
    ensures at + [e.name] <= p
  {
    if !e.indexed {
      FoundBelow(e, at + [e.name], depth + 1, maxDepth, p);
    }
  }

  lemma {:induction false} FromLaterEntry(dir: Entry, at: Path, depth: nat, maxDepth: nat, i: nat, p: Path)
    requires p in FoundFrom(dir, at, depth, maxDepth, i)
    ensures exists k :: i <= k < |dir.entries| && at + [dir.entries[k].name] <= p
    decreases |dir.entries| - i
  {
    FoundStep(dir, at, depth, maxDepth, i);
    if p in OfEntry(dir.entries[i], at, depth, maxDepth) {
      OfEntryStarts(dir.entries[i], at, depth, maxDepth, p);
    } else {
      FromLaterEntry(dir, at, depth, maxDepth, i + 1, p);
    }
  }

  lemma {:induction false} FoundFromNoRepeats(dir: Entry, at: Path, depth: nat, maxDepth: nat, i: nat)
    requires Distinct(dir)
    ensures NoRepeats(FoundFrom(dir, at, depth, maxDepth, i))
    decreases dir, |dir.entries| - i
  {
    if i < |dir.entries| {
      var e := dir.entries[i];
      var first, rest := OfEntry(e, at, depth, maxDepth), FoundFrom(dir, at, depth, maxDepth, i + 1);
      FoundStep(dir, at, depth, maxDepth, i);
      FoundFromNoRepeats(dir, at, depth, maxDepth, i + 1);
      if Visited(e) && !e.indexed {
        FoundNoRepeats(e, at + [e.name], depth + 1, maxDepth);
      }
      forall p | p in first && p in rest ensures false {
        OfEntryStarts(e, at, depth, maxDepth, p);
        FromLaterEntry(dir, at, depth, maxDepth, i + 1, p);
        var k :| i + 1 <= k < |dir.entries| && at + [dir.entries[k].name] <= p;
        SameName(at, e.name, dir.entries[k].name, p);
      }
      ApartNoRepeats(first, rest);
    }
  }

  lemma SameName(at: Path, a: string, b: string, p: Path)
    requires at + [a] <= p && at + [b] <= p
    ensures a == b
  {
    assert p[|at|] == (at + [a])[|at|] && p[|at|] == (at + [b])[|at|];
  }

  lemma ApartNoRepeats(a: seq<Path>, b: seq<Path>)
    requires NoRepeats(a) && NoRepeats(b) && forall p :: p in a ==> p !in b
    ensures NoRepeats(a + b)
  {
    var c := a + b;
    forall j, k | 0 <= j < k < |c| ensures c[j] != c[k] {
      if j < |a| <= k {
        assert a[j] in a && b[k - |a|] in b;
      } else if |a| <= j {
        assert b[j - |a|] != b[k - |a|];
      } else {
        assert a[j] != a[k];
      }
    }
  }

  /** No project is listed twice. */
  lemma {:induction false} FoundNoRepeats(dir: Entry, at: Path, depth: nat, maxDepth: nat)
    requires Distinct(dir)
    ensures NoRepeats(Found(dir, at, depth, maxDepth))
    decreases dir, |dir.entries| + 1
  {
    FoundFromNoRepeats(dir, at, depth, maxDepth, 0);
  }

  /** Depth-first order: where two paths part, the first one's entry is listed before the second one's. */
  ghost predicate ListedBefore(dir: Entry, p: Path, q: Path)
    decreases |p|
  {
    && p != [] && q != []
    && exists i: nat, j: nat :: i <= j < |dir.entries| && dir.entries[i].name == p[0] && dir.entries[j].name == q[0]
                             && (i < j || ListedBefore(dir.entries[i], p[1..], q[1..]))
  }

  lemma OneBefore(dir: Entry, i: nat, j: nat, p: Path, q: Path)
    requires p != [] && q != [] && i <= j < |dir.entries| && dir.entries[i].name == p[0] && dir.entries[j].name == q[0]
    requires i < j || ListedBefore(dir.entries[i], p[1..], q[1..])
    ensures ListedBefore(dir, p, q)
  {}

  lemma NameAt(at: Path, name: string, p: Path)
    requires at + [name] <= p
    ensures at <= p && p[|at|..] != [] && p[|at|..][0] == name && p[|at|..][1..] == p[|at + [name]|..]
  {
    assert p[|at|] == (at + [name])[|at|];
  }

  lemma SeveralBelow(e: Entry, at: Path, depth: nat, maxDepth: nat)
    requires |OfEntry(e, at, depth, maxDepth)| > 1
    ensures OfEntry(e, at, depth, maxDepth) == Found(e, at + [e.name], depth + 1, maxDepth)
  {}

  /** The projects are listed depth first, each directory's entries in the order they are read. */
  lemma {:induction false} FoundInOrder(dir: Entry, at: Path, depth: nat, maxDepth: nat, x: nat, y: nat)
    requires x < y < |Found(dir, at, depth, maxDepth)|
    ensures var found := Found(dir, at, depth, maxDepth);
            && at <= found[x] && at <= found[y]
            && ListedBefore(dir, found[x][|at|..], found[y][|at|..])
    decreases dir, |dir.entries| + 1
  {
    FromInOrder(dir, at, depth, maxDepth, 0, x, y);
  }

  lemma {:induction false} FromInOrder(dir: Entry, at: Path, depth: nat, maxDepth: nat, i: nat, x: nat, y: nat)
    requires x < y < |FoundFrom(dir, at, depth, maxDepth, i)|
    ensures var found := FoundFrom(dir, at, depth, maxDepth, i);
            && at <= found[x] && at <= found[y]
            && ListedBefore(dir, found[x][|at|..], found[y][|at|..])
    decreases dir, |dir.entries| - i
  {
    hide ListedBefore, FoundFrom, Found, OfEntry, Visited;
    FromNonEmpty(dir, at, depth, maxDepth, i);
    var e := dir.entries[i];
    var found, first := FoundFrom(dir, at, depth, maxDepth, i), OfEntry(e, at, depth, maxDepth);
    FoundStep(dir, at, depth, maxDepth, i);
    if x >= |first| {
      FromInOrder(dir, at, depth, maxDepth, i + 1, x - |first|, y - |first|);
    } else {
      assert found[x] == first[x];
      OfEntryStarts(e, at, depth, maxDepth, found[x]);
      NameAt(at, e.name, found[x]);
      if y < |first| {
        assert found[y] == first[y];
        OfEntryStarts(e, at, depth, maxDepth, found[y]);
        NameAt(at, e.name, found[y]);
        SeveralBelow(e, at, depth, maxDepth);
        FoundInOrder(e, at + [e.name], depth + 1, maxDepth, x, y);
        OneBefore(dir, i, i, found[x][|at|..], found[y][|at|..]);
      } else {
        FromLaterEntry(dir, at, depth, maxDepth, i + 1, found[y]);
        var k :| i + 1 <= k < |dir.entries| && at + [dir.entries[k].name] <= found[y];
        NameAt(at, dir.entries[k].name, found[y]);
        OneBefore(dir, i, k, found[x][|at|..], found[y][|at|..]);
      }
    }
  }

  lemma FromNonEmpty(dir: Entry, at: Path, depth: nat, maxDepth: nat, i: nat)
    requires FoundFrom(dir, at, depth, maxDepth, i) != []
    ensures i < |dir.entries|
  {}

  /** The scan passes over dotted names and these, and by default looks four levels deep for at most 64 projects. */
  lemma SkippedExactly(name: string)
    ensures Skipped(name) <==> (name != "" && name[0] == '.') || name in [
      "node_modules", "dist", "build", "out", "target", "vendor", "bin", "obj", "coverage", "venv", "__pycache__", "tmp", "temp"]
    ensures DEFAULT_MAX_DEPTH == 4 && DEFAULT_MAX == 64
  {
    assert ".git"[0] == ".svn"[0] == ".hg"[0] == ".next"[0] == ".nuxt"[0] == ".svelte-kit"[0] == ".cache"[0] == '.';
    assert ".venv"[0] == ".turbo"[0] == ".idea"[0] == ".vscode"[0] == '.';
  }

  // ---------------------------------------------------------------- the front-load plan

  /** An indexed sub-project, with its relative path and its directory's name in lower case. */
  datatype Candidate = Candidate(path: Path, relative: string, name: string)

  datatype Plan = Plan(exploreRoot: Option<Path>, nudgeProjects: seq<Path>, viaSubScan: bool)

  predicate IsWordChar(c: char) { 'a' <= c <= 'z' || 'A' <= c <= 'Z' || '0' <= c <= '9' || c == '_' }

  /** A word boundary before position `i`. */
  predicate Boundary(text: string, i: nat)
    requires i <= |text|
  {
    (i > 0 && IsWordChar(text[i - 1])) != (i < |text| && IsWordChar(text[i]))
  }

  predicate ContainsWord(text: string, word: string) {
    exists i :: 0 <= i <= |text| && StandsAt(text, i, word) && Boundary(text, i) && Boundary(text, i + |word|)
  }

  /** Ten points for the relative path, five for the directory's name as a word. */
  function Score(prompt: string, c: Candidate): nat {
    if c.relative != "" && Contains(prompt, c.relative) then 10
    else if |c.name| >= 3 && ContainsWord(prompt, c.name) then 5
    else 0
  }

  predicate Better(prompt: string, a: Candidate, b: Candidate) {
    Score(prompt, a) > Score(prompt, b) || (Score(prompt, a) == Score(prompt, b) && |a.relative| < |b.relative|)
  }

  /** The first candidate no other is better than, among those with a score. */
  ghost predicate IsBest(prompt: string, subs: seq<Candidate>, b: nat) {
    && b < |subs| && Score(prompt, subs[b]) > 0
    && (forall k :: 0 <= k < |subs| ==> !Better(prompt, subs[k], subs[b]))
    && (forall k :: 0 <= k < b ==> Better(prompt, subs[b], subs[k]))
  }

  function Paths(subs: seq<Candidate>): seq<Path> { seq(|subs|, k requires 0 <= k < |subs| => subs[k].path) }

  function Without(paths: seq<Path>, p: Path): seq<Path> {
    if paths == [] then []
    else (if paths[0] == p then [] else [paths[0]]) + Without(paths[1..], p)
  }

  /** The nearest indexed directory among the first six on the way up. */
  function NearestIndexed(ancestors: seq<(Path, bool)>, i: nat): Option<Path>
    decreases 6 - i
  {
    if i >= 6 || i >= |ancestors| then None
    else if ancestors[i].1 then Some(ancestors[i].0)
    else NearestIndexed(ancestors, i + 1)
  }

  /** What should be planned; `ancestors` are the working directory and its parents. */
  ghost predicate Planned(ancestors: seq<(Path, bool)>, workspace: bool, subs: seq<Candidate>, prompt: string, p: Plan) {
    match NearestIndexed(ancestors, 0)
    case Some(root) => p == Plan(Some(root), [], false)
    case None =>
      if !workspace || subs == [] then p == Plan(None, [], false)
      else if |subs| == 1 then p == Plan(Some(subs[0].path), [], true)
      else if forall k :: 0 <= k < |subs| ==> Score(prompt, subs[k]) == 0 then p == Plan(None, Paths(subs), true)
      else exists b: nat :: IsBest(prompt, subs, b) && p == Plan(Some(subs[b].path), Without(Paths(subs), subs[b].path), true)
  }

  method PlanFrontload(ancestors: seq<(Path, bool)>, workspace: bool, subs: seq<Candidate>, prompt: string) returns (p: Plan)
    ensures Planned(ancestors, workspace, subs, prompt, p)
  {
    var i: nat := 0;
    while i < 6 && i < |ancestors|
      invariant i <= 6 && i <= |ancestors|
      invariant NearestIndexed(ancestors, 0) == NearestIndexed(ancestors, i)
    {
      if ancestors[i].1 {
        return Plan(Some(ancestors[i].0), [], false);
      }
      i := i + 1;
    }
    if !workspace || |subs| == 0 {
      return Plan(None, [], false);
    }
    if |subs| == 1 {
      return Plan(Some(subs[0].path), [], true);
    }
    var best: Option<nat> := None;
    var k := 0;
    while k < |subs|
      invariant k <= |subs|
      invariant best.None? ==> forall j :: 0 <= j < k ==> Score(prompt, subs[j]) == 0
      invariant best.Some? ==> best.value < k && IsBest(prompt, subs[..k], best.value)
    {
      hide Score;
      var score := Score(prompt, subs[k]);
      assert subs[..k + 1] == subs[..k] + [subs[k]];
      if score > 0 {
        if best.None? {
          best := Some(k);
        } else {
          var top := Score(prompt, subs[best.value]);
          if score > top || (score == top && |subs[k].relative| < |subs[best.value].relative|) {
            best := Some(k);
          }
        }
      }
      k := k + 1;
    }
    assert subs[..k] == subs;
    if best.Some? {
      return Plan(Some(subs[best.value].path), Without(Paths(subs), subs[best.value].path), true);
    }
    p := Plan(None, Paths(subs), true);
  }

  /** Leaving out a path takes it away, and nothing else. */
  lemma {:induction false} WithoutPartitions(paths: seq<Path>, p: Path)
    requires NoRepeats(paths)
    ensures multiset(Without(paths, p)) == multiset(paths) - multiset{p}
    ensures NoRepeats(Without(paths, p))
    decreases |paths|
  {
    hide NoRepeats;
    if paths != [] {
      var first, rest := paths[0], paths[1..];
      TailNoRepeats(paths);
      WithoutPartitions(rest, p);
      WithoutMembers(rest, p, first);
      hide Without;
      WithoutStep(paths, p);
      if first == p {
        HeadLeftOut(first, rest);
      } else {
        HeadKept(first, rest, p);
        ConsNoRepeats(first, Without(rest, p));
      }
    }
  }

  lemma WithoutStep(paths: seq<Path>, p: Path)
    requires paths != []
    ensures paths == [paths[0]] + paths[1..]
    ensures Without(paths, p) == if paths[0] == p then Without(paths[1..], p) else [paths[0]] + Without(paths[1..], p)
  {}

  lemma HeadLeftOut(first: Path, rest: seq<Path>)
    requires first !in rest
    ensures multiset(rest) - multiset{first} == multiset([first] + rest) - multiset{first}
  {
    assert multiset(rest)[first] == 0;
  }

  lemma HeadKept(first: Path, rest: seq<Path>, p: Path)
    requires first != p
    ensures multiset{first} + (multiset(rest) - multiset{p}) == multiset([first] + rest) - multiset{p}
  {}

  lemma TailNoRepeats(paths: seq<Path>)
    requires paths != [] && NoRepeats(paths)
    ensures NoRepeats(paths[1..]) && paths[0] !in paths[1..]
  {
    assert forall k :: 0 <= k < |paths[1..]| ==> paths[1..][k] == paths[k + 1];
  }

  lemma {:induction false} WithoutMembers(paths: seq<Path>, p: Path, q: Path)
    ensures q in Without(paths, p) <==> q in paths && q != p
    decreases |paths|
  {
    if paths != [] {
      WithoutMembers(paths[1..], p, q);
    }
  }

  lemma ConsNoRepeats(p: Path, paths: seq<Path>)
    requires NoRepeats(paths) && p !in paths
    ensures NoRepeats([p] + paths)
  {}

  // ---------------------------------------------------------------- which project a plan explores

  /** One of the working directory and its five nearest parents is indexed, and this is the nearest. */
  predicate Nearest(ancestors: seq<(Path, bool)>, k: nat) {
    k < 6 && k < |ancestors| && ancestors[k].1 && forall j :: 0 <= j < k ==> !ancestors[j].1
  }

  lemma {:induction false} NearestFrom(ancestors: seq<(Path, bool)>, i: nat)
    requires i <= 6 && forall j :: 0 <= j < i && j < |ancestors| ==> !ancestors[j].1
    ensures match NearestIndexed(ancestors, i)
            case Some(root) => exists k: nat :: Nearest(ancestors, k) && ancestors[k].0 == root
            case None => forall k: nat :: !Nearest(ancestors, k)
    decreases 6 - i
  {
    if i < 6 && i < |ancestors| {
      if ancestors[i].1 {
        assert Nearest(ancestors, i);
      } else {
        NearestFrom(ancestors, i + 1);
      }
    }
  }

  /** Which plan is made: for an ancestor alone, from the sub-projects alone, or none. */
  lemma PlanWhere(ancestors: seq<(Path, bool)>, workspace: bool, subs: seq<Candidate>, prompt: string, p: Plan)
    requires Planned(ancestors, workspace, subs, prompt, p)
    ensures forall k: nat :: Nearest(ancestors, k) ==> p == Plan(Some(ancestors[k].0), [], false)
    ensures p.viaSubScan <==> workspace && subs != [] && forall k: nat :: !Nearest(ancestors, k)
    ensures (forall k: nat :: !Nearest(ancestors, k)) && !p.viaSubScan ==> p == Plan(None, [], false)
    ensures p.viaSubScan && |subs| == 1 ==> p == Plan(Some(subs[0].path), [], true)
    ensures p.viaSubScan && p.exploreRoot.None? ==> |p.nudgeProjects| == |subs| && forall k :: 0 <= k < |subs| ==> p.nudgeProjects[k] == subs[k].path
  {
    hide Score, IsBest, Without;
    NearestFrom(ancestors, 0);
  }

  predicate NamesPath(prompt: string, c: Candidate) { c.relative != "" && Contains(prompt, c.relative) }

  predicate NamesDirectory(prompt: string, c: Candidate) { |c.name| >= 3 && ContainsWord(prompt, c.name) }

  /**
   * A prompt that spells the path of some sub-project explores one whose path it
   * spells; else one whose directory's name it spells as a word; of these the
   * first with the shortest path. One that spells none explores none.
   */
  lemma PathBeatsName(ancestors: seq<(Path, bool)>, workspace: bool, subs: seq<Candidate>, prompt: string, p: Plan)
    requires Planned(ancestors, workspace, subs, prompt, p) && p.viaSubScan && |subs| >= 2
    ensures p.exploreRoot.None? <==> forall c <- subs :: !NamesPath(prompt, c) && !NamesDirectory(prompt, c)
    ensures p.exploreRoot.Some? ==>
      exists b: nat :: b < |subs| && p.exploreRoot == Some(subs[b].path) &&
        if exists c <- subs :: NamesPath(prompt, c)
        then NamesPath(prompt, subs[b]) && forall k :: 0 <= k < |subs| && NamesPath(prompt, subs[k]) ==> Precedes(subs, b, k)
        else NamesDirectory(prompt, subs[b]) && forall k :: 0 <= k < |subs| && NamesDirectory(prompt, subs[k]) ==> Precedes(subs, b, k)
  {
    hide Contains, ContainsWord;
    if p.exploreRoot.Some? {
      var b: nat :| IsBest(prompt, subs, b) && p == Plan(Some(subs[b].path), Without(Paths(subs), subs[b].path), true);
      forall k | 0 <= k < |subs| ensures Score(prompt, subs[k]) <= Score(prompt, subs[b]) {
        assert !Better(prompt, subs[k], subs[b]);
      }
      if exists c <- subs :: NamesPath(prompt, c) {
        var c :| c in subs && NamesPath(prompt, c);
        assert Score(prompt, c) == 10;
      }
      assert subs[b] in subs;
    } else {
      forall c | c in subs ensures !NamesPath(prompt, c) && !NamesDirectory(prompt, c) {
        assert Score(prompt, c) == 0;
      }
    }
  }

  /** The path of the candidate at `b` is shorter than that at `k`, or as long and not later. */
  predicate Precedes(subs: seq<Candidate>, b: nat, k: nat)
    requires b < |subs| && k < |subs|
  {
    |subs[b].relative| < |subs[k].relative| || (|subs[b].relative| == |subs[k].relative| && b <= k)
  }

  /** What the limited scan of the workspace lists. */
  function Listed(root: Entry, maxDepth: nat, max: nat): seq<Path> { Take(Found(root, [], 1, maxDepth), max) }

  /**
   * A plan made from the limited scan: no sub-project is listed twice, and the
   * explored root and the nudge list together hold each listed one once.
   */
  lemma PlanPartitions(
      root: Entry, maxDepth: nat, max: nat,
      ancestors: seq<(Path, bool)>, workspace: bool, subs: seq<Candidate>, prompt: string, p: Plan)
    requires Distinct(root) && Paths(subs) == Listed(root, maxDepth, max)
    requires Planned(ancestors, workspace, subs, prompt, p) && p.viaSubScan
    ensures NoRepeats(Paths(subs)) && NoRepeats(p.nudgeProjects)
    ensures multiset(Paths(subs))
         == multiset(p.nudgeProjects) + if p.exploreRoot.Some? then multiset{p.exploreRoot.value} else multiset{}
  {
    hide Found;
    FoundNoRepeats(root, [], 1, maxDepth);
    PrefixNoRepeats(Found(root, [], 1, maxDepth), max);
    if |subs| == 1 {
      assert Paths(subs) == [subs[0].path];
    } else if p.exploreRoot.Some? {
      var b: nat :| b < |subs| && IsBest(prompt, subs, b)
                 && p == Plan(Some(subs[b].path), Without(Paths(subs), subs[b].path), true);
      assert Paths(subs)[b] == subs[b].path;
      WithoutPartitions(Paths(subs), subs[b].path);
    }
  }

  lemma PrefixNoRepeats(paths: seq<Path>, max: nat)
    requires NoRepeats(paths)
    ensures NoRepeats(Take(paths, max))
  {}
}
