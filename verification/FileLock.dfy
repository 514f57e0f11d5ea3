// The cross-process lock file: one lock object per process, acquire and release each one step.

module FileLocks {
  import opened Wrappers

  type Pid = nat

  const STALE_TIMEOUT: nat := 120000

  /** The lock file: whose pid it holds (none if it does not parse) and when it was written. */
  datatype LockFile = LockFile(owner: Option<Pid>, written: nat)

  // ---------------------------------------------------------------- the object

  class Disk {
    var file: Option<LockFile>

    constructor ()
      ensures file == None
    {
      file := None;
    }
  }

  /** An existing lock file only counts while it is young, readable and its process lives. */
  predicate Blocks(file: Option<LockFile>, now: nat, alive: set<Pid>) {
    && file.Some?
    && now - file.value.written < STALE_TIMEOUT
    && file.value.owner.Some? && file.value.owner.value in alive
  }

  class FileLock {
    const disk: Disk
    const pid: Pid
    var held: bool

    constructor (disk: Disk, pid: Pid)
      ensures this.disk == disk && this.pid == pid && !held
    {
      this.disk, this.pid, held := disk, pid, false;
    }

    method Acquire(now: nat, alive: set<Pid>) returns (ok: bool)
      modifies this, disk
      ensures ok == !Blocks(old(disk.file), now, alive)
      ensures disk.file == if ok then Some(LockFile(Some(pid), now)) else old(disk.file)
      ensures held == (ok || old(held))
    {
      if disk.file.Some? {
        var age := now - disk.file.value.written;
        if age < STALE_TIMEOUT && disk.file.value.owner.Some? && disk.file.value.owner.value in alive {
          return false;
        }
        disk.file := None;
      }
      disk.file := Some(LockFile(Some(pid), now));
      held := true;
      ok := true;
    }

    /** Only the owner's file is deleted, and only by a holder. */
    method Release()
      modifies this, disk
      ensures !held
      ensures disk.file == if old(held) && old(disk.file).Some? && old(disk.file).value.owner == Some(pid) then None
                           else old(disk.file)
    {
      if !held {
        return;
      }
      if disk.file.Some? && disk.file.value.owner == Some(pid) {
        disk.file := None;
      }
      held := false;
    }
  }

  // ---------------------------------------------------------------- every process, any order

  /** `held` maps each process whose object is held to the time it last acquired. */
  datatype State = State(now: nat, file: Option<LockFile>, held: map<Pid, nat>, alive: set<Pid>, gone: set<Pid>)

  datatype Move = Acquire(p: Pid) | Release(p: Pid) | Tick(ms: nat) | Spawn(p: Pid) | Die(p: Pid)

  /** Pids are not reused. */
  predicate Enabled(s: State, m: Move) {
    match m
    case Acquire(p) => p in s.alive
    case Release(p) => p in s.alive
    case Tick(_) => true
    case Spawn(p) => p !in s.alive && p !in s.gone
    case Die(p) => p in s.alive
  }

  function Next(s: State, m: Move): State {
    match m
    case Acquire(p) =>
      if Blocks(s.file, s.now, s.alive) then s
      else s.(file := Some(LockFile(Some(p), s.now)), held := s.held[p := s.now])
    case Release(p) =>
      if p !in s.held then s
      else s.(file := if s.file.Some? && s.file.value.owner == Some(p) then None else s.file, held := s.held - {p})
    case Tick(ms) => s.(now := s.now + ms)
    case Spawn(p) => s.(alive := s.alive + {p})
    case Die(p) => s.(alive := s.alive - {p}, gone := s.gone + {p}, held := s.held - {p})
  }

  /** The objects of the processes and the shared file, next to the moves. */
  method PerformAcquire(l: FileLock, s: State)
    requires l.disk.file == s.file && (l.held <==> l.pid in s.held)
    modifies l, l.disk
    ensures var t := Next(s, Acquire(l.pid)); l.disk.file == t.file && (l.held <==> l.pid in t.held)
  {
    var _ := l.Acquire(s.now, s.alive);
  }

  method PerformRelease(l: FileLock, s: State)
    requires l.disk.file == s.file && (l.held <==> l.pid in s.held)
    modifies l, l.disk
    ensures var t := Next(s, Release(l.pid)); l.disk.file == t.file && (l.held <==> l.pid in t.held)
  {
    l.Release();
  }

  // ---------------------------------------------------------------- the invariant

  /** The process holds, and its lock is younger than the timeout. */
  predicate Fresh(s: State, p: Pid) {
    p in s.held && s.now - s.held[p] < STALE_TIMEOUT
  }

  function Apart(a: nat, b: nat): nat { if a < b then b - a else a - b }

  /** Holders live; a fresh one owns the file; two holders are a whole timeout apart. */
  ghost predicate Inv(s: State) {
    && (forall p :: p in s.held ==> p in s.alive && s.held[p] <= s.now)
    && (forall p :: Fresh(s, p) ==> s.file == Some(LockFile(Some(p), s.held[p])))
    && (forall p, q :: p in s.held && q in s.held && p != q ==> Apart(s.held[p], s.held[q]) >= STALE_TIMEOUT)
  }

  lemma AcquireKeepsInv(s: State, a: Pid)
    requires Inv(s) && a in s.alive
    ensures Inv(Next(s, Acquire(a)))
  {
    if !Blocks(s.file, s.now, s.alive) {
      var t := Next(s, Acquire(a));
      forall p | p in s.held && p != a ensures s.now - s.held[p] >= STALE_TIMEOUT {
        assert !Fresh(s, p);
      }
      forall p | Fresh(t, p) ensures p == a {
        assert p in t.held;
      }
    }
  }

  lemma ReleaseKeepsInv(s: State, a: Pid)
    requires Inv(s)
    ensures Inv(Next(s, Release(a)))
  {
    var t := Next(s, Release(a));
    forall p | Fresh(t, p) ensures t.file == Some(LockFile(Some(p), t.held[p])) {
      assert Fresh(s, p);
    }
  }

  lemma NextKeepsInv(s: State, m: Move)
    requires Inv(s) && Enabled(s, m)
    ensures Inv(Next(s, m))
  {
    match m
    case Acquire(p) => AcquireKeepsInv(s, p);
    case Release(p) => ReleaseKeepsInv(s, p);
    case _ =>
      var t := Next(s, m);
      forall p | Fresh(t, p) ensures t.file == Some(LockFile(Some(p), t.held[p])) {
        assert Fresh(s, p);
      }
  }

  ghost predicate Run(s: State, moves: seq<Move>)
    decreases |moves|
  {
    moves == [] || (Enabled(s, moves[0]) && Run(Next(s, moves[0]), moves[1..]))
  }

  function After(s: State, moves: seq<Move>): State
    decreases |moves|
  {
    if moves == [] then s else After(Next(s, moves[0]), moves[1..])
  }

  lemma {:induction false} RunKeepsInv(s: State, moves: seq<Move>)
    requires Inv(s) && Run(s, moves)
    ensures Inv(After(s, moves))
    decreases |moves|
  {
    if moves != [] {
      NextKeepsInv(s, moves[0]);
      RunKeepsInv(Next(s, moves[0]), moves[1..]);
    }
  }

  /**
   * From any leftover lock file, after any run: while a live holder's lock is
   * young no acquire by anybody succeeds, no second young holder exists, and
   * nobody but that holder can remove its file.
   */
  lemma FreshHolderIsAlone(now: nat, leftover: Option<LockFile>, alive: set<Pid>, moves: seq<Move>, p: Pid, q: Pid)
    requires Run(State(now, leftover, map[], alive, {}), moves)
    requires Fresh(After(State(now, leftover, map[], alive, {}), moves), p)
    ensures var s := After(State(now, leftover, map[], alive, {}), moves);
            && Next(s, Acquire(q)) == s
            && (Fresh(s, q) ==> q == p)
            && (q != p ==> Next(s, Release(q)).file == s.file == Some(LockFile(Some(p), s.held[p])))
  {
    var start := State(now, leftover, map[], alive, {});
    RunKeepsInv(start, moves);
    var s := After(start, moves);
    assert Blocks(s.file, s.now, s.alive);
  }

  /** This move takes a file of `q` away: `q`'s own release, or an acquire the file does not block. */
  predicate Takes(s: State, m: Move, q: Pid) {
    match m
    case Release(p) => p == q && q in s.held
    case Acquire(p) => !Blocks(s.file, s.now, s.alive)
    case _ => false
  }

  lemma AfterStep(s: State, moves: seq<Move>, i: nat)
    requires 0 < i <= |moves|
    ensures After(Next(s, moves[0]), moves[1..][..i - 1]) == After(s, moves[..i])
  {
    assert moves[..i][1..] == moves[1..][..i - 1] && moves[..i][0] == moves[0];
  }

  /**
   * Over any run a file of `q` stands unchanged until `q` itself releases it or
   * an acquire finds it stale or its process dead: a holder whose lock was
   * taken over never removes the new owner's file.
   */
  lemma {:induction false} OverrunHolderIsHarmless(s: State, moves: seq<Move>, q: Pid)
    requires Run(s, moves) && s.file.Some? && s.file.value.owner == Some(q) && After(s, moves).file != s.file
    ensures exists i :: 0 <= i < |moves| && After(s, moves[..i]).file == s.file && Takes(After(s, moves[..i]), moves[i], q)
    decreases |moves|
  {
    assert moves[..0] == [] && After(s, moves[..0]) == s;
    if !Takes(s, moves[0], q) {
      var t, rest := Next(s, moves[0]), moves[1..];
      assert t.file == s.file;
      OverrunHolderIsHarmless(t, rest, q);
      var i :| 0 <= i < |rest| && After(t, rest[..i]).file == t.file && Takes(After(t, rest[..i]), rest[i], q);
      AfterStep(s, moves, i + 1);
      assert moves[i + 1] == rest[i];
    }
  }

  /** A lock that was not taken over is free again after its release, for everybody. */
  lemma ReleaseFrees(s: State, p: Pid, q: Pid)
    requires Inv(s) && Fresh(s, p)
    ensures var t := Next(s, Release(p)); t.file == None && q in Next(t, Acquire(q)).held
  {}

  /**
   * An acquire succeeds exactly if there is no lock file, or its pid cannot be
   * read, or its process is gone, or it is two minutes old; a live process may
   * be overrun. Only then is the file rewritten, for the new owner and time.
   */
  lemma AcquireExactly(s: State, q: Pid)
    ensures var t := Next(s, Acquire(q));
            var free := s.file.None? || s.file.value.owner.None? || s.file.value.owner.value !in s.alive
                        || s.now >= s.file.value.written + 120000;
            if free then t == s.(file := Some(LockFile(Some(q), s.now)), held := s.held[q := s.now]) else t == s
  {}

  /** A live holder is overrun after two minutes and not a millisecond before. */
  lemma OverrunExactly(s: State, p: Pid, q: Pid, ms: nat)
    requires s.file == None && p in s.alive && q in s.alive && p != q
    ensures var t := After(s, [Acquire(p), Tick(ms), Acquire(q)]);
            && Run(s, [Acquire(p), Tick(ms), Acquire(q)])
            && (if ms < 120000 then t.file == Some(LockFile(Some(p), s.now)) && (q in t.held <==> q in s.held)
                else t.file == Some(LockFile(Some(q), s.now + ms)) && q in t.held && p in t.held)
  {
    var s1 := Next(s, Acquire(p));
    var s2 := Next(s1, Tick(ms));
    var s3 := Next(s2, Acquire(q));
    assert After(s3, []) == s3 && Run(s3, []);
    assert [Acquire(q)][1..] == [];
    assert After(s2, [Acquire(q)]) == s3 && Run(s2, [Acquire(q)]);
    assert [Tick(ms), Acquire(q)][1..] == [Acquire(q)];
    assert After(s1, [Tick(ms), Acquire(q)]) == s3 && Run(s1, [Tick(ms), Acquire(q)]);
    assert [Acquire(p), Tick(ms), Acquire(q)][1..] == [Tick(ms), Acquire(q)];
  }
}
