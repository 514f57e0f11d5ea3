// The in-process mutex: any number of clients, any interleaving.

module Mutexes {
  import opened Wrappers
  import opened Seqs

  type Client = nat

  // ---------------------------------------------------------------- the object

  class Mutex {
    var locked: bool
    var waitQueue: seq<Client>

    constructor ()
      ensures !locked && waitQueue == []
    {
      locked, waitQueue := false, [];
    }

    /** One round of the acquire loop: take the lock, or queue up and sleep. */
    method Poll(c: Client) returns (granted: bool)
      modifies this
      ensures granted == !old(locked) && locked
      ensures waitQueue == if granted then old(waitQueue) else old(waitQueue) + [c]
    {
      if locked {
        waitQueue := waitQueue + [c];
        return false;
      }
      locked := true;
      granted := true;
    }

    /** The release function: unlock, and wake the first sleeper. */
    method Release() returns (woken: Option<Client>)
      modifies this
      ensures !locked
      ensures old(waitQueue) == [] ==> woken == None && waitQueue == []
      ensures old(waitQueue) != [] ==> woken == Some(old(waitQueue)[0]) && waitQueue == old(waitQueue)[1..]
    {
      locked := false;
      if waitQueue == [] {
        return None;
      }
      woken := Some(waitQueue[0]);
      waitQueue := waitQueue[1..];
    }
  }

  // ---------------------------------------------------------------- clients under any scheduler

  /** Where a `withLock` client is; a woken one has still to run and test the lock again. */
  datatype Phase = Start | Waiting | Woken | Granted | Inside | Done

  datatype State = State(locked: bool, queue: seq<Client>, phases: seq<Phase>)

  datatype Move = Poll(c: Client) | Enter(c: Client) | Release(c: Client)

  function Initial(n: nat): State {
    State(false, [], seq(n, _ => Start))
  }

  predicate Enabled(s: State, m: Move) {
    && m.c < |s.phases|
    && match m
       case Poll(c) => s.phases[c].Start? || s.phases[c].Woken?
       case Enter(c) => s.phases[c].Granted?
       case Release(c) => s.phases[c].Inside?
  }

  function Wake(phases: seq<Phase>, c: Client): seq<Phase> {
    if c < |phases| then phases[c := Woken] else phases
  }

  function Next(s: State, m: Move): State
    requires Enabled(s, m)
  {
    match m
    case Poll(c) =>
      if s.locked then State(true, s.queue + [c], s.phases[c := Waiting])
      else State(true, s.queue, s.phases[c := Granted])
    case Enter(c) => s.(phases := s.phases[c := Inside])
    case Release(c) =>
      if s.queue == [] then State(false, [], s.phases[c := Done])
      else State(false, s.queue[1..], Wake(s.phases[c := Done], s.queue[0]))
  }

  /** One move of a client on the object itself. */
  method Perform(x: Mutex, phases: seq<Phase>, m: Move) returns (after: seq<Phase>)
    requires Enabled(State(x.locked, x.waitQueue, phases), m)
    modifies x
    ensures State(x.locked, x.waitQueue, after) == Next(old(State(x.locked, x.waitQueue, phases)), m)
  {
    match m
    case Poll(c) =>
      var granted := x.Poll(c);
      after := phases[c := if granted then Granted else Waiting];
    case Enter(c) =>
      after := phases[c := Inside];
    case Release(c) =>
      var woken := x.Release();
      after := phases[c := Done];
      if woken.Some? {
        after := Wake(after, woken.value);
      }
  }

  predicate Holds(p: Phase) { p.Granted? || p.Inside? }

  // ---------------------------------------------------------------- the invariant

  ghost predicate Queued(s: State) {
    && (forall k :: 0 <= k < |s.queue| ==> s.queue[k] < |s.phases| && s.phases[s.queue[k]].Waiting?)
    && (forall j, k :: 0 <= j < k < |s.queue| ==> s.queue[j] != s.queue[k])
    && (forall c :: 0 <= c < |s.phases| && s.phases[c].Waiting? ==> c in s.queue)
  }

  ghost predicate AtMostOneHolds(s: State) {
    forall b, c :: 0 <= b < c < |s.phases| ==> !(Holds(s.phases[b]) && Holds(s.phases[c]))
  }

  ghost predicate SomeoneHolds(s: State) { exists c :: 0 <= c < |s.phases| && Holds(s.phases[c]) }

  ghost predicate SomeoneWoken(s: State) { exists c :: 0 <= c < |s.phases| && s.phases[c].Woken? }

  /** Mutual exclusion, an exact lock bit, an exact queue, and no lost wakeup. */
  ghost predicate Inv(s: State) {
    && Queued(s)
    && AtMostOneHolds(s)
    && (s.locked <==> SomeoneHolds(s))
    && (s.queue != [] ==> s.locked || SomeoneWoken(s))
  }

  lemma InitialInv(n: nat)
    ensures Inv(Initial(n))
  {}

  lemma PollKeepsInv(s: State, c: Client)
    requires Inv(s) && Enabled(s, Poll(c))
    ensures Inv(Next(s, Poll(c)))
  {
    var t := Next(s, Poll(c));
    if s.locked {
      var h :| 0 <= h < |s.phases| && Holds(s.phases[h]);
      assert Holds(t.phases[h]);
      forall d | 0 <= d < |t.phases| && t.phases[d].Waiting? ensures d in t.queue {
        if d == c {
          assert t.queue[|s.queue|] == c;
        } else {
          assert d in s.queue;
        }
      }
    } else {
      assert Holds(t.phases[c]);
      forall d | 0 <= d < |t.phases| && t.phases[d].Waiting? ensures d in t.queue {
        assert s.phases[d].Waiting?;
      }
      forall d | 0 <= d < |t.phases| ensures Holds(t.phases[d]) ==> d == c {
        assert d != c ==> !Holds(s.phases[d]);
      }
    }
  }

  lemma EnterKeepsInv(s: State, c: Client)
    requires Inv(s) && Enabled(s, Enter(c))
    ensures Inv(Next(s, Enter(c)))
  {
    var t := Next(s, Enter(c));
    assert Holds(s.phases[c]) && Holds(t.phases[c]);
    forall d | 0 <= d < |t.phases| ensures Holds(t.phases[d]) <==> Holds(s.phases[d]) {}
    forall d | 0 <= d < |t.phases| && t.phases[d].Waiting? ensures d in t.queue {
      assert s.phases[d].Waiting?;
    }
  }

  lemma ReleaseKeepsInv(s: State, c: Client)
    requires Inv(s) && Enabled(s, Release(c))
    ensures Inv(Next(s, Release(c)))
  {
    var t := Next(s, Release(c));
    assert Holds(s.phases[c]);
    forall d | 0 <= d < |t.phases| ensures !Holds(t.phases[d]) {
      if d != c {
        assert !Holds(s.phases[d]);
      }
    }
    if s.queue != [] {
      assert t.phases[s.queue[0]].Woken?;
      forall d | 0 <= d < |t.phases| && t.phases[d].Waiting? ensures d in t.queue {
        assert s.phases[d].Waiting?;
        var k :| 0 <= k < |s.queue| && s.queue[k] == d;
        assert t.queue[k - 1] == d;
      }
    }
  }

  /** Every move of every client keeps the invariant. */
  lemma NextKeepsInv(s: State, m: Move)
    requires Inv(s) && Enabled(s, m)
    ensures Inv(Next(s, m))
  {
    match m
    case Poll(c) => PollKeepsInv(s, c);
    case Enter(c) => EnterKeepsInv(s, c);
    case Release(c) => ReleaseKeepsInv(s, c);
  }

  // ---------------------------------------------------------------- progress

  ghost predicate AllDone(s: State) { forall c :: 0 <= c < |s.phases| ==> s.phases[c].Done? }

  /** As long as a client is not done, some client can move. */
  lemma NoDeadlock(s: State)
    requires Inv(s) && !AllDone(s)
    ensures exists m :: Enabled(s, m)
  {
    var c :| 0 <= c < |s.phases| && !s.phases[c].Done?;
    if s.phases[c].Waiting? {
      assert c in s.queue;
      if s.locked {
        HolderMoves(s);
      } else {
        var d :| 0 <= d < |s.phases| && s.phases[d].Woken?;
        assert Enabled(s, Poll(d));
      }
    } else if Holds(s.phases[c]) {
      HolderMoves(s);
    } else {
      assert Enabled(s, Poll(c));
    }
  }

  lemma HolderMoves(s: State)
    requires SomeoneHolds(s)
    ensures exists m :: Enabled(s, m)
  {
    var h :| 0 <= h < |s.phases| && Holds(s.phases[h]);
    if s.phases[h].Granted? {
      assert Enabled(s, Enter(h));
    } else {
      assert Enabled(s, Release(h));
    }
  }

  /** What a client can still cause: finishing counts three, running on its own up to two. */
  function Left(p: Phase): nat {
    match p
    case Start => 5
    case Woken => 5
    case Waiting => 3
    case Granted => 4
    case Inside => 3
    case Done => 0
  }

  function Measure(phases: seq<Phase>): nat {
    if phases == [] then 0 else Measure(phases[..|phases| - 1]) + Left(phases[|phases| - 1])
  }

  lemma {:induction false} MeasureUpdate(phases: seq<Phase>, c: Client, p: Phase)
    requires c < |phases|
    ensures Measure(phases[c := p]) == Measure(phases) - Left(phases[c]) + Left(p)
  {
    var n := |phases| - 1;
    if c == n {
      assert phases[c := p][..n] == phases[..n];
    } else {
      assert phases[c := p][..n] == phases[..n][c := p];
      MeasureUpdate(phases[..n], c, p);
    }
  }

  /** Every move uses something up, wakeups included. */
  lemma MoveDecreases(s: State, m: Move)
    requires Inv(s) && Enabled(s, m)
    ensures Measure(Next(s, m).phases) < Measure(s.phases)
  {
    match m
    case Poll(c) =>
      MeasureUpdate(s.phases, c, Waiting);
      MeasureUpdate(s.phases, c, Granted);
    case Enter(c) => MeasureUpdate(s.phases, c, Inside);
    case Release(c) =>
      MeasureUpdate(s.phases, c, Done);
      if s.queue != [] {
        MeasureUpdate(s.phases[c := Done], s.queue[0], Woken);
      }
  }

  lemma {:induction false} InitialMeasure(n: nat)
    ensures Measure(Initial(n).phases) == 5 * n
  {
    if n > 0 {
      assert Initial(n).phases[..n - 1] == Initial(n - 1).phases;
      InitialMeasure(n - 1);
    }
  }

  // ---------------------------------------------------------------- whole runs

  ghost predicate Run(s: State, moves: seq<Move>)
    decreases |moves|
  {
    moves == [] || (Enabled(s, moves[0]) && Run(Next(s, moves[0]), moves[1..]))
  }

  function After(s: State, moves: seq<Move>): State
    requires Run(s, moves)
    decreases |moves|
  {
    if moves == [] then s else After(Next(s, moves[0]), moves[1..])
  }

  lemma {:induction false} RunKeepsInv(s: State, moves: seq<Move>)
    requires Inv(s) && Run(s, moves)
    ensures Inv(After(s, moves)) && |moves| + Measure(After(s, moves).phases) <= Measure(s.phases)
    decreases |moves|
  {
    if moves != [] {
      NextKeepsInv(s, moves[0]);
      MoveDecreases(s, moves[0]);
      RunKeepsInv(Next(s, moves[0]), moves[1..]);
    }
  }

  /**
   * With `n` clients whose bodies end: at every point at most one is inside;
   * no run is longer than `5 * n` moves; and where no move is left, all are done.
   */
  lemma EveryRunFinishes(n: nat, moves: seq<Move>)
    requires Run(Initial(n), moves)
    ensures var s := After(Initial(n), moves);
            && Inv(s)
            && |moves| <= 5 * n
            && ((forall m :: !Enabled(s, m)) ==> AllDone(s))
  {
    InitialInv(n);
    InitialMeasure(n);
    RunKeepsInv(Initial(n), moves);
    var s := After(Initial(n), moves);
    if !AllDone(s) {
      NoDeadlock(s);
    }
  }

  // ---------------------------------------------------------------- first come, first woken

  /** The clients that go to sleep along a run: those that poll while the lock is taken. */
  function Sleepers(s: State, moves: seq<Move>): seq<Client>
    requires Run(s, moves)
    decreases |moves|
  {
    if moves == [] then []
    else (if moves[0].Poll? && s.locked then [moves[0].c] else []) + Sleepers(Next(s, moves[0]), moves[1..])
  }

  /** The clients from `i` on that sleep before and are woken after. */
  function NewlyWoken(was: seq<Phase>, now: seq<Phase>, i: nat): seq<Client>
    requires |now| == |was|
    decreases |was| - i
  {
    if i >= |was| then []
    else (if was[i].Waiting? && now[i].Woken? then [i] else []) + NewlyWoken(was, now, i + 1)
  }

  lemma SameClients(s: State, m: Move)
    requires Enabled(s, m)
    ensures |Next(s, m).phases| == |s.phases|
  {}

  /** The clients that are woken along a run, in order. */
  function Wakened(s: State, moves: seq<Move>): seq<Client>
    requires Run(s, moves)
    decreases |moves|
  {
    if moves == [] then []
    else
      SameClients(s, moves[0]);
      NewlyWoken(s.phases, Next(s, moves[0]).phases, 0) + Wakened(Next(s, moves[0]), moves[1..])
  }

  lemma {:induction false} NobodyWoken(was: seq<Phase>, now: seq<Phase>, i: nat)
    requires |now| == |was| && forall k :: i <= k < |was| ==> !(was[k].Waiting? && now[k].Woken?)
    ensures NewlyWoken(was, now, i) == []
    decreases |was| - i
  {
    if i < |was| {
      NobodyWoken(was, now, i + 1);
    }
  }

  lemma {:induction false} OneWoken(was: seq<Phase>, now: seq<Phase>, i: nat, c: Client)
    requires |now| == |was| && i <= c < |was| && was[c].Waiting? && now[c].Woken?
    requires forall k :: i <= k < |was| && k != c ==> !(was[k].Waiting? && now[k].Woken?)
    ensures NewlyWoken(was, now, i) == [c]
    decreases |was| - i
  {
    if i < c {
      OneWoken(was, now, i + 1, c);
    } else {
      NobodyWoken(was, now, i + 1);
    }
  }

  /** One move takes the head of the queue or adds at its end. */
  lemma QueueStep(s: State, m: Move)
    requires Inv(s) && Enabled(s, m) && |Next(s, m).phases| == |s.phases|
    ensures s.queue + (if m.Poll? && s.locked then [m.c] else [])
         == NewlyWoken(s.phases, Next(s, m).phases, 0) + Next(s, m).queue
  {
    var t := Next(s, m);
    if m.Release? && s.queue != [] {
      OneWoken(s.phases, t.phases, 0, s.queue[0]);
      assert s.queue == [s.queue[0]] + s.queue[1..];
    } else {
      NobodyWoken(s.phases, t.phases, 0);
    }
  }

  /** Over any run the sleepers are woken in the order in which they went to sleep, and the rest of them are queued. */
  lemma {:induction false} FirstComeFirstWoken(s: State, moves: seq<Move>)
    requires Inv(s) && Run(s, moves)
    ensures s.queue + Sleepers(s, moves) == Wakened(s, moves) + After(s, moves).queue
    decreases |moves|
  {
    hide Inv, Next, Enabled, NewlyWoken;
    if moves == [] {
      assert s.queue + [] == [] + s.queue;
    } else {
      var m, t := moves[0], Next(s, moves[0]);
      SameClients(s, m);
      QueueStep(s, m);
      NextKeepsInv(s, m);
      FirstComeFirstWoken(t, moves[1..]);
      var slept, woken := if m.Poll? && s.locked then [m.c] else [], NewlyWoken(s.phases, t.phases, 0);
      Regroup(s.queue, slept, Sleepers(t, moves[1..]));
      Regroup(woken, t.queue, Sleepers(t, moves[1..]));
      Regroup(woken, Wakened(t, moves[1..]), After(t, moves[1..]).queue);
    }
  }
}
