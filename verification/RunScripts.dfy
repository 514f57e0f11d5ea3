// The order in which an index or sync run makes its calls, as a flowchart, and what a log of a run through it holds.

module RunScripts {
  import opened Wrappers

  datatype IndexState = Indexing | Complete | Partial | Failed

  /** A call that may fail: into another component, into git, or into the database. */
  datatype Step =
    | SetState(value: IndexState)
    | BeginGit | CountBefore | ClearVocab | BeginNodeLoad | BeginParseLoad | Extract | EndParseLoad | EndNodeLoad | Fold
    | Reinitialize | PostExtract | CountUnresolved | PragmaSynchronous | PragmaJournal | PutOffCheckpoints | StartValve
    | ResolveBatched | ResolveChained | ResolveDeferred | Maintain | Recount | StampVersion | StampExtraction
    | FinishGit | NoteDiscovered | NoteAccounted | Freshness
    | ProbeVocab | SyncFiles | ClearCaches | LoadRefs | ResolveScoped | LoadRetryable | ResolveRetryable | Rebind
    | CountOrphans | ResolveOrphans | CountNodes | BackfillVocab | ReadState

  /** What becomes of a call. */
  datatype Fate = Proceed | Throw | Kill

  datatype Reply = Reply(step: Step, fate: Fate)

  type Log = seq<Reply>

  /**
   * A flowchart: where a run goes on after a call that proceeded and after one
   * that threw; a kill ends it. Astray is where no run can be.
   */
  datatype Script = Stop(fate: Fate) | Call(step: Step, done: Script, threw: Script) | Astray

  function Next(s: Script, r: Reply): Script {
    if !s.Call? || s.step != r.step then Astray
    else match r.fate
      case Proceed => s.done
      case Throw => s.threw
      case Kill => Stop(Kill)
  }

  /** Where a run with this log stands. */
  function Walk(s: Script, log: Log): Script
    decreases |log|
  {
    if log == [] then s else Walk(Next(s, log[0]), log[1..])
  }

  function Written(state: Option<IndexState>, r: Reply): Option<IndexState> {
    if r.step.SetState? && r.fate.Proceed? then Some(r.step.value) else state
  }

  /** The recorded index state after the writes of a log. */
  function StateAfter(state: Option<IndexState>, log: Log): Option<IndexState>
    decreases |log|
  {
    if log == [] then state else StateAfter(Written(state, log[0]), log[1..])
  }

  lemma {:induction false} OneMore(s: Script, state: Option<IndexState>, log: Log, r: Reply)
    ensures Walk(s, log + [r]) == Next(Walk(s, log), r)
    ensures StateAfter(state, log + [r]) == Written(StateAfter(state, log), r)
    decreases |log|
  {
    if log == [] {
      assert (log + [r])[1..] == [];
    } else {
      assert (log + [r])[1..] == log[1..] + [r];
      OneMore(Next(s, log[0]), Written(state, log[0]), log[1..], r);
    }
  }

  lemma Start(s: Script, log: Log)
    requires s.Call? && Walk(s, log).Stop?
    ensures log != [] && log[0].step == s.step && Walk(s, log) == Walk(Next(s, log[0]), log[1..])
  {
    if log != [] && log[0].step != s.step {
      Lost(log[1..]);
    }
  }

  lemma {:induction false} Lost(log: Log)
    ensures Walk(Astray, log) == Astray
    decreases |log|
  {
    if log != [] {
      Lost(log[1..]);
    }
  }

  lemma Stopped(f: Fate, log: Log)
    requires Walk(Stop(f), log) != Astray
    ensures log == [] && Walk(Stop(f), log) == Stop(f)
  {
    if log != [] {
      Lost(log[1..]);
    }
  }

  // ---------------------------------------------------------------- pieces of a script

  /** A call whose exception ends the run. */
  function Must(step: Step, k: Script): Script { Call(step, k, Stop(Throw)) }

  /** A call whose exception is swallowed. */
  function Advisory(step: Step, k: Script): Script { Call(step, k, k) }

  function MustAll(steps: seq<Step>, k: Script): Script {
    if steps == [] then k else Must(steps[0], MustAll(steps[1..], k))
  }

  function When(c: bool, steps: seq<Step>, k: Script): Script { if c then MustAll(steps, k) else k }

  function StepsOf(steps: seq<Step>): set<Step> { set x | x in steps }

  // ---------------------------------------------------------------- what has happened before a state is written

  predicate Earned(need: set<Step>, log: Log) { forall x <- need :: Reply(x, Proceed) in log }

  /** Wherever the script writes a state it writes `v`, and only past every call of `need`. */
  predicate Guarded(s: Script, v: IndexState, have: set<Step>, need: set<Step>) {
    s.Call? ==>
      && (s.step.SetState? ==> s.step.value == v && need <= have)
      && Guarded(s.done, v, have + {s.step}, need)
      && Guarded(s.threw, v, have, need)
  }

  lemma {:induction false} GuardedMore(s: Script, v: IndexState, have: set<Step>, more: set<Step>, need: set<Step>)
    requires Guarded(s, v, have, need) && have <= more
    ensures Guarded(s, v, more, need)
    decreases s
  {
    if s.Call? {
      GuardedMore(s.done, v, have + {s.step}, more + {s.step}, need);
      GuardedMore(s.threw, v, have, more, need);
    }
  }

  lemma GuardedAdvisory(step: Step, k: Script, v: IndexState, have: set<Step>, need: set<Step>)
    requires Guarded(k, v, have, need) && (step.SetState? ==> step.value == v && need <= have)
    ensures Guarded(Advisory(step, k), v, have, need)
  {
    GuardedMore(k, v, have, have + {step}, need);
  }

  lemma {:induction false} GuardedAll(steps: seq<Step>, k: Script, v: IndexState, have: set<Step>, need: set<Step>)
    requires forall x <- steps :: !x.SetState?
    requires Guarded(k, v, have + StepsOf(steps), need)
    ensures Guarded(MustAll(steps, k), v, have, need)
    decreases |steps|
  {
    if steps == [] {
      assert have + StepsOf(steps) == have;
    } else {
      assert have + {steps[0]} + StepsOf(steps[1..]) == have + StepsOf(steps) by {
        assert steps == [steps[0]] + steps[1..];
      }
      GuardedAll(steps[1..], k, v, have + {steps[0]}, need);
    }
  }

  lemma GuardedWhen(c: bool, steps: seq<Step>, k: Script, v: IndexState, have: set<Step>, need: set<Step>)
    requires forall x <- steps :: !x.SetState?
    requires Guarded(k, v, have + if c then StepsOf(steps) else {}, need)
    ensures Guarded(When(c, steps, k), v, have, need)
  {
    if c {
      GuardedAll(steps, k, v, have, need);
    } else {
      assert have + {} == have;
    }
  }

  /** A run through a guarded script: the state it leaves, and what preceded each write. */
  lemma {:induction false} GuardedRun(
      s: Script, v: IndexState, have: set<Step>, need: set<Step>, log: Log, state: Option<IndexState>)
    requires Guarded(s, v, have, need) && Walk(s, log) != Astray
    ensures StateAfter(state, log) == if Reply(SetState(v), Proceed) in log then Some(v) else state
    ensures forall i :: 0 <= i < |log| && log[i].step.SetState? ==>
              log[i].step.value == v && Earned(need - have, log[..i])
    decreases |log|
  {
    if log != [] {
      var r, rest := log[0], log[1..];
      assert log == [r] + rest;
      if !s.Call? || s.step != r.step {
        Lost(rest);
      } else if r.fate.Kill? {
        Stopped(Kill, rest);
      } else {
        var now := if r.fate.Proceed? then have + {s.step} else have;
        GuardedRun(Next(s, r), v, now, need, rest, Written(state, r));
        forall i | 0 <= i < |log| && log[i].step.SetState?
          ensures log[i].step.value == v && Earned(need - have, log[..i])
        {
          if i > 0 {
            assert rest[i - 1] == log[i] && log[..i] == [r] + rest[..i - 1];
          }
        }
      }
    }
  }

  // ---------------------------------------------------------------- what can still throw

  predicate Final(step: Step) { step.SetState? && step.value != Indexing }

  predicate Finals(log: Log) { exists r <- log :: Final(r.step) && r.fate.Proceed? }

  /** Only the exceptions of these calls end the script, and they always do. */
  predicate OnlyThrows(s: Script, fatal: set<Step>) {
    && s != Stop(Throw)
    && (s.Call? ==>
          && OnlyThrows(s.done, fatal)
          && (if s.step in fatal then s.threw == Stop(Throw) else OnlyThrows(s.threw, fatal)))
  }

  lemma {:induction false} OnlyThrowsRun(s: Script, fatal: set<Step>, log: Log)
    requires OnlyThrows(s, fatal) && Walk(s, log).Stop?
    ensures Walk(s, log) == Stop(Throw) <==> log != [] && log[|log| - 1].step in fatal && log[|log| - 1].fate.Throw?
    decreases |log|
  {
    if s.Stop? {
      Stopped(s.fate, log);
    } else {
      if s.Astray? {
        Lost(log);
      }
      Start(s, log);
      var n := Next(s, log[0]);
      if n.Stop? {
        Stopped(n.fate, log[1..]);
      } else {
        OnlyThrowsRun(n, fatal, log[1..]);
      }
    }
  }

  /** Past a final state only the exceptions of these calls end the script. */
  predicate LateThrows(s: Script, fatal: set<Step>) {
    s.Call? ==>
      && (Final(s.step) ==> OnlyThrows(s.done, fatal))
      && LateThrows(s.done, fatal) && LateThrows(s.threw, fatal)
  }

  lemma {:induction false} LateThrowsAll(steps: seq<Step>, k: Script, fatal: set<Step>)
    requires LateThrows(k, fatal) && forall x <- steps :: !x.SetState?
    ensures LateThrows(MustAll(steps, k), fatal)
    decreases |steps|
  {
    if steps != [] {
      LateThrowsAll(steps[1..], k, fatal);
    }
  }

  lemma {:induction false} LateThrowsRun(s: Script, fatal: set<Step>, log: Log)
    requires LateThrows(s, fatal) && Walk(s, log).Stop? && Finals(log)
    ensures Walk(s, log) == Stop(Throw) <==> log[|log| - 1].step in fatal && log[|log| - 1].fate.Throw?
    decreases |log|
  {
    if s.Stop? {
      Stopped(s.fate, log);
    } else {
      if s.Astray? {
        Lost(log);
      }
      Start(s, log);
      var n, rest := Next(s, log[0]), log[1..];
      assert log == [log[0]] + rest;
      if Final(s.step) && log[0].fate.Proceed? {
        OnlyThrowsRun(n, fatal, rest);
      } else {
        var r :| r in log && Final(r.step) && r.fate.Proceed?;
        assert r in rest;
        if log[0].fate.Kill? {
          Stopped(Kill, rest);
        }
        LateThrowsRun(n, fatal, rest);
      }
    }
  }

  // ---------------------------------------------------------------- what a run that returns has asked for

  /** Every way to a return goes through this call. */
  predicate Asks(s: Script, step: Step) {
    match s
    case Stop(f) => !f.Proceed?
    case Call(x, done, threw) => x == step || (Asks(done, step) && Asks(threw, step))
    case Astray => true
  }

  lemma {:induction false} AsksAll(steps: seq<Step>, k: Script, step: Step)
    requires Asks(k, step)
    ensures Asks(MustAll(steps, k), step)
    decreases |steps|
  {
    if steps != [] {
      AsksAll(steps[1..], k, step);
    }
  }

  lemma {:induction false} AsksRun(s: Script, step: Step, log: Log)
    requires Asks(s, step) && Walk(s, log) == Stop(Proceed)
    ensures Reply(step, Proceed) in log || Reply(step, Throw) in log
    decreases |log|
  {
    if s.Stop? {
      Stopped(s.fate, log);
    } else {
      if s.Astray? {
        Lost(log);
      }
      Start(s, log);
      assert log == [log[0]] + log[1..];
      if log[0].fate.Kill? {
        Stopped(Kill, log[1..]);
      } else if s.step != step {
        AsksRun(Next(s, log[0]), step, log[1..]);
      }
    }
  }

  // ---------------------------------------------------------------- runs in which nothing fails

  predicate Smooth(log: Log) { forall r <- log :: r.fate.Proceed? }

  function SmoothEnd(s: Script): Script { if s.Call? then SmoothEnd(s.done) else s }

  lemma {:induction false} SmoothAll(steps: seq<Step>, k: Script)
    ensures SmoothEnd(MustAll(steps, k)) == SmoothEnd(k)
    decreases |steps|
  {
    if steps != [] {
      SmoothAll(steps[1..], k);
    }
  }

  lemma {:induction false} SmoothRun(s: Script, log: Log)
    requires Smooth(log) && Walk(s, log).Stop?
    ensures Walk(s, log) == SmoothEnd(s)
    decreases |log|
  {
    if s.Call? {
      Start(s, log);
      SmoothRun(s.done, log[1..]);
    } else {
      if s.Astray? {
        Lost(log);
      }
      Stopped(s.fate, log);
    }
  }
}
