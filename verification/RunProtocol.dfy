// indexAll and sync as run protocols: what an exception or a kill at any point leaves behind.

module RunProtocol {
  import opened Wrappers
  import opened RunScripts

  datatype Journal = Wal | Memory | OtherJournal

  datatype Synchronous = Normal | Off

  /** The database, its connection, and the file lock. */
  datatype Db = Db(indexState: Option<IndexState>, interval: int, journal: Journal, synchronous: Synchronous, locked: bool)

  datatype Outcome = Refused | Returned | Thrown | Killed

  datatype IndexResult = IndexResult(success: bool, indexed: nat, skipped: nat, errored: nat, discovered: Option<nat>)

  /** Everything a full run depends on that is not this protocol's own; `answer` is what extraction yields if it proceeds. */
  datatype FullWorld = FullWorld(
    lockFree: bool, noFastInit: bool, noWalDefer: bool, freshDb: bool, memoryPragma: bool, offPragma: bool,
    answer: IndexResult, poolRuns: bool)

  /** The same for a sync: `changed`, `removed`, `scoped` and `rebinds` are told by the orchestrator's result. */
  datatype SyncWorld = SyncWorld(
    lockFree: bool, noWalDefer: bool, fullReconcile: bool, vocabEmpty: bool, hasNodes: bool,
    changed: bool, removed: bool, scoped: bool, retryable: bool, rebinds: bool, orphans: bool)

  function FastInit(w: FullWorld): bool { !w.noFastInit && w.freshDb }

  /** Whether the run owns a checkpoint valve from the start. */
  function HasValve(db: Db, w: FullWorld): bool { !FastInit(w) && !w.noWalDefer && db.journal == Wal }

  function SyncHasValve(db: Db, w: SyncWorld): bool { !w.noWalDefer && db.journal == Wal }

  predicate Works(r: IndexResult) { r.success && r.indexed > 0 }

  predicate Finishes(r: IndexResult) {
    r.success && r.errored == 0 && (r.discovered.None? || r.indexed + r.skipped >= r.discovered.value)
  }

  /** The state a finished full run records for its result. */
  function Verdict(r: IndexResult): IndexState {
    if !r.success then Failed
    else if r.discovered.Some? && r.discovered.value > r.indexed + r.skipped + r.errored then Partial
    else Complete
  }

  predicate Accounted(r: IndexResult) {
    r.success && (r.discovered.Some? ==> r.indexed + r.skipped + r.errored >= r.discovered.value)
  }

  // ---------------------------------------------------------------- the calls of a full run, in order

  function FullScript(w: FullWorld, valve: bool): Script {
    MustAll([BeginGit, CountBefore], Advisory(SetState(Indexing), Loading(w, valve)))
  }

  function Loading(w: FullWorld, valve: bool): Script {
    Advisory(ClearVocab, Must(BeginNodeLoad, When(w.freshDb, [BeginParseLoad], Extraction(w, valve))))
  }

  /** The bulk loads are ended also when extraction throws. */
  function Extraction(w: FullWorld, valve: bool): Script {
    Call(Extract, Unloading(w, Extracted(w, valve)), Unloading(w, Stop(Throw)))
  }

  function Unloading(w: FullWorld, k: Script): Script { When(w.freshDb, [EndParseLoad], Must(EndNodeLoad, k)) }

  function Extracted(w: FullWorld, valve: bool): Script {
    When(valve, [Fold], if Works(w.answer) then Resolution(w, Closing(w.answer)) else Closing(w.answer))
  }

  function Resolution(w: FullWorld, k: Script): Script {
    MustAll([Reinitialize, PostExtract, CountUnresolved],
            if FastInit(w) && w.poolRuns then BackToWal(Linking(k)) else Linking(k))
  }

  function BackToWal(k: Script): Script {
    Call(PragmaSynchronous, Call(PragmaJournal, Call(PutOffCheckpoints, Advisory(StartValve, k), k), k), k)
  }

  function Linking(k: Script): Script {
    MustAll([ResolveBatched, ResolveChained, ResolveDeferred, Maintain, Recount],
            Call(StampVersion, Advisory(StampExtraction, k), k))
  }

  function Closing(r: IndexResult): Script { When(Finishes(r), [FinishGit], Recording(r, Finale(r.success))) }

  function Recording(r: IndexResult, k: Script): Script {
    if r.success then Call(SetState(Verdict(r)), Noting(r, k), k) else Advisory(SetState(Failed), k)
  }

  function Noting(r: IndexResult, k: Script): Script {
    if r.discovered.Some? then Call(NoteDiscovered, Advisory(NoteAccounted, k), k) else k
  }

  function Finale(success: bool): Script {
    if success then Advisory(Freshness, Stop(Proceed)) else Stop(Proceed)
  }

  /** The calls a full run owes before it may record a verdict. */
  function FullNeeds(w: FullWorld, valve: bool): set<Step> {
    {BeginGit, CountBefore, BeginNodeLoad, Extract, EndNodeLoad}
    + (if w.freshDb then {BeginParseLoad, EndParseLoad} else {})
    + (if valve then {Fold} else {})
    + (if Works(w.answer) then
         {Reinitialize, PostExtract, CountUnresolved, ResolveBatched, ResolveChained, ResolveDeferred, Maintain, Recount}
       else {})
    + (if Finishes(w.answer) then {FinishGit} else {})
  }

  // ---------------------------------------------------------------- the calls of a sync, in order

  function SyncScript(w: SyncWorld, valve: bool, state: Option<IndexState>): Script {
    Call(ProbeVocab, Syncing(w, valve, state, w.vocabEmpty), Syncing(w, valve, state, false))
  }

  function Syncing(w: SyncWorld, valve: bool, state: Option<IndexState>, heal: bool): Script {
    MustAll([BeginGit, SyncFiles], When(valve, [Fold], Refreshing(w, Sweeping(w, Healing(w, heal, SyncClosing(w, state))))))
  }

  function Refreshing(w: SyncWorld, k: Script): Script {
    if w.changed then MustAll([PostExtract], Resolving(w, k)) else When(w.removed, [ClearCaches], k)
  }

  function Resolving(w: SyncWorld, k: Script): Script {
    if w.scoped then MustAll([LoadRefs, ResolveScoped, LoadRetryable], When(w.retryable, [ResolveRetryable], k))
    else MustAll([CountUnresolved, ResolveBatched], k)
  }

  /** Rebinding, the orphan sweep and what follows any resolution. */
  function Sweeping(w: SyncWorld, k: Script): Script {
    When(w.rebinds, [Rebind], MustAll([CountOrphans], When(w.orphans, [ResolveOrphans], Linked(w, k))))
  }

  function Linked(w: SyncWorld, k: Script): Script {
    When(w.changed || w.orphans, [ResolveChained, ResolveDeferred], When(w.changed || w.removed || w.orphans, [Maintain], k))
  }

  function Healing(w: SyncWorld, heal: bool, k: Script): Script {
    if heal then Call(CountNodes, if w.hasNodes then Advisory(BackfillVocab, k) else k, k) else k
  }

  function SyncClosing(w: SyncWorld, state: Option<IndexState>): Script {
    if w.fullReconcile then
      Must(ReadState, if state == Some(Indexing) then Advisory(SetState(Complete), SyncFinale()) else SyncFinale())
    else SyncFinale()
  }

  function SyncFinale(): Script { Must(FinishGit, Advisory(Freshness, Stop(Proceed))) }

  /** The repairs a sync owes before it may close an interrupted index. */
  function SyncNeeds(w: SyncWorld, valve: bool): set<Step> {
    {BeginGit, SyncFiles, ReadState} + (if valve then {Fold} else {}) + RefreshNeeds(w) + SweepNeeds(w)
  }

  function RefreshNeeds(w: SyncWorld): set<Step> {
    if w.changed && w.scoped then
      {PostExtract, LoadRefs, ResolveScoped, LoadRetryable} + (if w.retryable then {ResolveRetryable} else {})
    else if w.changed then {PostExtract, CountUnresolved, ResolveBatched}
    else if w.removed then {ClearCaches}
    else {}
  }

  function SweepNeeds(w: SyncWorld): set<Step> {
    (if w.rebinds then {Rebind} else {}) + {CountOrphans}
    + (if w.orphans then {ResolveOrphans} else {})
    + (if w.changed || w.orphans then {ResolveChained, ResolveDeferred} else {})
    + (if w.changed || w.removed || w.orphans then {Maintain} else {})
  }

  // ---------------------------------------------------------------- what a run may do, as a relation

  function Ended(f: Fate): Outcome {
    match f
    case Proceed => Returned
    case Throw => Thrown
    case Kill => Killed
  }

  /** The connection is back as it was, durable after a fast build, and the lock is free. */
  predicate Restored(before: Db, after: Db, fast: bool) {
    && !after.locked
    && after.interval == before.interval
    && (if fast then after.journal == Wal && after.synchronous == Normal
        else after.journal == before.journal && after.synchronous == before.synchronous)
  }

  /**
   * What is left when the valve's drain, the first call of the `finally` block,
   * throws: the durable modes are back, but checkpoints stay put off and the
   * lock stays taken.
   */
  predicate Stranded(before: Db, after: Db, fast: bool) {
    && after.locked && after.interval == 0 && after.journal == Wal
    && after.synchronous == if fast then Normal else before.synchronous
  }

  /** A drain that fails decides how the run ends. */
  function Concluded(f: Fate, drain: Option<Fate>): Fate {
    if drain.Some? && !drain.value.Proceed? then drain.value else f
  }

  /**
   * A run through the script to one of its ends, with these replies, and then
   * through the `finally` block, from one database to another. `drains` says
   * whether there is a valve to drain.
   */
  predicate RunTo(
      before: Db, after: Db, script: Script, fast: bool, drains: bool, out: Outcome, log: Log, drain: Option<Fate>)
  {
    var end := Walk(script, log);
    && end.Stop?
    && after.indexState == StateAfter(before.indexState, log)
    && (drain.Some? <==> drains && !end.fate.Kill?)
    && out == Ended(Concluded(end.fate, drain))
    && (if out.Killed? then after.locked
        else if drain == Some(Throw) then Stranded(before, after, fast)
        else Restored(before, after, fast))
  }

  lemma Ran(
      before: Db, after: Db, script: Script, fast: bool, drains: bool, f: Fate, log: Log, drain: Option<Fate>)
    requires Walk(script, log) == Stop(f) && after.indexState == StateAfter(before.indexState, log)
    requires drain.Some? <==> drains && !f.Kill?
    requires if Concluded(f, drain).Kill? then after.locked
             else if drain == Some(Throw) then Stranded(before, after, fast)
             else Restored(before, after, fast)
    ensures RunTo(before, after, script, fast, drains, Ended(Concluded(f, drain)), log, drain)
  {}

  /** The pool's valve was started. */
  predicate Armed(log: Log) { Reply(StartValve, Proceed) in log }

  predicate SameValve(log: Log, more: Log) { Armed(log) == Armed(more) }

  predicate FullRun(before: Db, after: Db, w: FullWorld, out: Outcome, log: Log, drain: Option<Fate>) {
    if !w.lockFree then out.Refused? && after == before && log == [] && drain == None
    else
      var valve := HasValve(before, w);
      RunTo(before, after, FullScript(w, valve), FastInit(w), valve || Armed(log), out, log, drain)
  }

  predicate SyncRun(before: Db, after: Db, w: SyncWorld, out: Outcome, log: Log, drain: Option<Fate>) {
    if !w.lockFree then out.Refused? && after == before && log == [] && drain == None
    else
      var valve := SyncHasValve(before, w);
      RunTo(before, after, SyncScript(w, valve, before.indexState), false, valve, out, log, drain)
  }

  /** The replies of a log are those of the world, from its `base`-th call on. */
  ghost predicate Answers(log: Log, oracle: nat -> Fate, base: nat) {
    forall i :: 0 <= i < |log| ==> log[i].fate == oracle(base + i)
  }

  /** The drain's reply is the next one after the log's. */
  ghost predicate DrainAnswers(log: Log, drain: Option<Fate>, oracle: nat -> Fate, base: nat) {
    drain.Some? ==> drain.value == oracle(base + |log|)
  }

  ghost predicate NoFaults(oracle: nat -> Fate) { forall k :: oracle(k) == Proceed }

  // ---------------------------------------------------------------- the engine

  class Engine {
    var indexState: Option<IndexState>
    var interval: int
    var journal: Journal
    var synchronous: Synchronous
    var locked: bool
    var calls: nat
    const oracle: nat -> Fate

    /** The script of the run under way, the state and the number of calls at its start, its replies, and the drain's. */
    ghost var script: Script
    ghost var initial: Option<IndexState>
    ghost var base: nat
    ghost var log: Log
    ghost var drain: Option<Fate>

    constructor (db: Db, oracle: nat -> Fate)
      ensures State() == db && this.oracle == oracle && calls == 0
    {
      indexState, interval, journal := db.indexState, db.interval, db.journal;
      synchronous, locked, calls := db.synchronous, db.locked, 0;
      this.oracle := oracle;
    }

    function State(): Db
      reads this
    {
      Db(indexState, interval, journal, synchronous, locked)
    }

    /** Checkpoints are put off in the durable journal. */
    predicate Deferred()
      reads this`interval, this`journal, this`synchronous
    {
      interval == 0 && journal == Wal && synchronous == Normal
    }

    /** The run under way stands at `k`. */
    ghost predicate At(k: Script)
      reads this
    {
      && Walk(script, log) == k
      && indexState == StateAfter(initial, log)
      && calls == base + |log|
      && Answers(log, oracle, base)
    }

    lemma Arrived(k: Script)
      requires At(k)
      ensures Walk(script, log) == k && indexState == StateAfter(initial, log)
      ensures calls == base + |log| && Answers(log, oracle, base)
    {}

    ghost method Begin(k: Script)
      modifies this`script, this`initial, this`base, this`log
      ensures At(k) && script == k && initial == indexState && base == calls && log == []
    {
      script, initial, base, log := k, indexState, calls, [];
    }

    /** A call into code that is not part of this protocol. */
    method External(step: Step, ghost done: Script, ghost threw: Script) returns (f: Fate)
      requires At(Call(step, done, threw)) && !step.SetState?
      modifies this`calls, this`log
      ensures At(if f.Proceed? then done else if f.Throw? then threw else Stop(Kill))
      ensures Armed(log) == (Armed(old(log)) || (step == StartValve && f.Proceed?))
    {
      f := oracle(calls);
      OneMore(script, initial, log, Reply(step, f));
      calls := calls + 1;
      log := log + [Reply(step, f)];
    }

    /** A write of the index state, which holds only if the write proceeds. */
    method SetIndexState(v: IndexState, ghost done: Script, ghost threw: Script) returns (f: Fate)
      requires At(Call(SetState(v), done, threw))
      modifies this`calls, this`log, this`indexState
      ensures At(if f.Proceed? then done else if f.Throw? then threw else Stop(Kill))
      ensures SameValve(old(log), log)
    {
      f := oracle(calls);
      OneMore(script, initial, log, Reply(SetState(v), f));
      calls := calls + 1;
      log := log + [Reply(SetState(v), f)];
      if f.Proceed? {
        indexState := Some(v);
      }
    }

    /** A call whose exception is swallowed where it is made. */
    method Attempt(step: Step, ghost k: Script) returns (f: Fate)
      requires At(Advisory(step, k)) && !step.SetState? && step != StartValve
      modifies this`calls, this`log
      ensures SameValve(old(log), log)
      ensures f.Proceed? ==> At(k)
      ensures !f.Proceed? ==> f.Kill? && At(Stop(f))
    {
      f := External(step, k, k);
      f := if f.Kill? then Kill else Proceed;
    }

    /** Calls in order, until one throws or kills. */
    method Calls(steps: seq<Step>, ghost k: Script) returns (f: Fate)
      requires At(MustAll(steps, k)) && forall x <- steps :: !x.SetState? && x != StartValve
      modifies this`calls, this`log
      ensures SameValve(old(log), log)
      ensures f.Proceed? ==> At(k)
      ensures !f.Proceed? ==> At(Stop(f))
    {
      f := Proceed;
      var i := 0;
      while i < |steps|
        invariant i <= |steps| && f.Proceed? && At(MustAll(steps[i..], k)) && SameValve(old(log), log)
      {
        assert steps[i..][0] == steps[i] && steps[i..][1..] == steps[i + 1..];
        f := External(steps[i], MustAll(steps[i + 1..], k), Stop(Throw));
        if !f.Proceed? {
          return;
        }
        i := i + 1;
      }
    }

    method CallsIf(c: bool, steps: seq<Step>, ghost k: Script) returns (f: Fate)
      requires At(When(c, steps, k)) && forall x <- steps :: !x.SetState? && x != StartValve
      modifies this`calls, this`log
      ensures SameValve(old(log), log)
      ensures f.Proceed? ==> At(k)
      ensures !f.Proceed? ==> At(Stop(f))
    {
      f := Proceed;
      if c {
        f := Calls(steps, k);
      }
    }

    // -------------------------------------------------------------- indexAll

    method IndexAll(w: FullWorld) returns (out: Outcome)
      modifies this
      ensures FullRun(old(State()), State(), w, out, log, drain)
      ensures Answers(log, oracle, old(calls)) && DrainAnswers(log, drain, oracle, old(calls))
      ensures calls == old(calls) + |log| + if drain.Some? then 1 else 0
    {
      if !w.lockFree {
        log, drain := [], None;
        return Refused;
      }
      out := LockedIndexAll(w);
    }

    method LockedIndexAll(w: FullWorld) returns (out: Outcome)
      requires w.lockFree
      modifies this
      ensures FullRun(old(State()), State(), w, out, log, drain)
      ensures Answers(log, oracle, old(calls)) && DrainAnswers(log, drain, oracle, old(calls))
      ensures calls == old(calls) + |log| + if drain.Some? then 1 else 0
    {
      hide At, FullScript, Walk, StateAfter, Answers, DrainAnswers, RunTo;
      locked := true;
      var fastInit := !w.noFastInit && w.freshDb;
      if fastInit {
        SpeedUp(w);
      }
      var deferWal := !fastInit && !w.noWalDefer && journal == Wal;
      var prior := PutOff(deferWal);
      Begin(FullScript(w, deferWal));
      var f, restore, again, armed;
      f, restore, again, armed := IndexBody(w, fastInit, deferWal);
      out := Finish(f, deferWal || armed, deferWal || restore, if restore then again else prior, fastInit, old(State()));
    }

    /**
     * Unless the process was killed the run ends in the `finally` block, which
     * first drains the valve, unguarded: if that throws, the rest is skipped.
     */
    method Finish(f: Fate, drains: bool, putOff: bool, prior: int, fastInit: bool, ghost before: Db) returns (out: Outcome)
      requires At(Stop(f)) && locked && initial == before.indexState
      requires before.interval == if putOff then prior else interval
      requires !fastInit ==> journal == before.journal && synchronous == before.synchronous
      requires drains ==> interval == 0 && journal == Wal && (fastInit ==> synchronous == Normal)
      modifies this`calls, this`interval, this`journal, this`synchronous, this`locked, this`drain
      ensures RunTo(before, State(), script, fastInit, drains, out, log, drain)
      ensures Answers(log, oracle, base) && DrainAnswers(log, drain, oracle, base)
      ensures calls == base + |log| + if drain.Some? then 1 else 0
    {
      hide At, Walk, StateAfter, Answers, RunTo;
      Arrived(Stop(f));
      drain := None;
      var d := Proceed;
      if !f.Kill? {
        if drains {
          d := Drain();
        }
        if d.Proceed? {
          TearDown(putOff, prior, fastInit);
        }
      }
      Ran(before, State(), script, fastInit, drains, f, log, drain);
      out := Ended(if d.Proceed? then f else d);
    }

    /** walValve.stop, walValve.drain */
    method Drain() returns (d: Fate)
      modifies this`calls, this`drain
      ensures d == oracle(old(calls)) && drain == Some(d) && calls == old(calls) + 1
    {
      d := oracle(calls);
      calls := calls + 1;
      drain := Some(d);
    }

    /** The fast mode of a fresh build: the pragmas up to the first that fails. */
    method SpeedUp(w: FullWorld)
      modifies this`journal, this`synchronous
      ensures journal == if w.memoryPragma then Memory else old(journal)
      ensures synchronous == if w.memoryPragma && w.offPragma then Off else old(synchronous)
    {
      if w.memoryPragma {
        journal := Memory;
        if w.offPragma {
          synchronous := Off;
        }
      }
    }

    /** Checkpoints are put off for the run; `prior` is the interval to come back to. */
    method PutOff(deferWal: bool) returns (prior: int)
      modifies this`interval
      ensures deferWal ==> prior == old(interval) && interval == 0
      ensures !deferWal ==> interval == old(interval)
    {
      prior := 1000;
      if deferWal {
        prior := interval;
        interval := 0;
      }
    }

    /** The rest of the `finally` block: the interval, the durable modes after a fast build, and the lock. */
    method TearDown(putOff: bool, prior: int, fastInit: bool)
      modifies this`interval, this`journal, this`synchronous, this`locked
      ensures interval == if putOff then prior else old(interval)
      ensures journal == if fastInit then Wal else old(journal)
      ensures synchronous == if fastInit then Normal else old(synchronous)
      ensures !locked
    {
      if putOff {
        interval := prior;
      }
      if fastInit {
        synchronous := Normal;
        journal := Wal;
      }
      locked := false;
    }

    /** The guarded part. `restore` and `again` are the interval a pool run put off; `armed`, whether it started a valve. */
    method IndexBody(w: FullWorld, fastInit: bool, valve: bool) returns (f: Fate, restore: bool, again: int, armed: bool)
      requires fastInit == FastInit(w) && (fastInit ==> !valve)
      requires At(FullScript(w, valve)) && !Armed(log)
      modifies this`calls, this`log, this`indexState, this`interval, this`journal, this`synchronous
      ensures At(Stop(f))
      ensures restore ==> fastInit && again == old(interval)
      ensures !restore ==> interval == old(interval)
      ensures !fastInit ==> journal == old(journal) && synchronous == old(synchronous)
      ensures armed == Armed(log) && (armed ==> fastInit && Deferred())
    {
      restore, again, armed := false, 0, false;
      f := Calls([BeginGit, CountBefore], Advisory(SetState(Indexing), Loading(w, valve)));
      if !f.Proceed? {
        return;
      }
      f := SetIndexState(Indexing, Loading(w, valve), Loading(w, valve));
      if f.Kill? {
        return;
      }
      f := Extracting(w, valve);
      if !f.Proceed? {
        return;
      }
      ghost var closing := Closing(w.answer);
      f := CallsIf(valve, [Fold], if Works(w.answer) then Resolution(w, closing) else closing);
      if !f.Proceed? {
        return;
      }
      if w.answer.success && w.answer.indexed > 0 {
        f, restore, again, armed := Resolve(w, fastInit, closing);
        if !f.Proceed? {
          return;
        }
      }
      f := Close(w.answer);
    }

    /** The bulk loads around the orchestrator, which end also after an exception. */
    method Extracting(w: FullWorld, valve: bool) returns (f: Fate)
      requires At(Loading(w, valve))
      modifies this`calls, this`log
      ensures SameValve(old(log), log)
      ensures f.Proceed? ==> At(Extracted(w, valve))
      ensures !f.Proceed? ==> At(Stop(f))
    {
      hide At, MustAll, Extracted, Armed, Unloading;
      f := Load(w, Extraction(w, valve));
      if !f.Proceed? {
        return;
      }
      var extracted := External(Extract, Unloading(w, Extracted(w, valve)), Unloading(w, Stop(Throw)));
      if extracted.Kill? {
        return Kill;
      }
      f := Unload(w, if extracted.Proceed? then Extracted(w, valve) else Stop(Throw));
      if !f.Proceed? {
        return;
      }
      f := extracted;
    }

    method Load(w: FullWorld, ghost k: Script) returns (f: Fate)
      requires At(Advisory(ClearVocab, Must(BeginNodeLoad, When(w.freshDb, [BeginParseLoad], k))))
      modifies this`calls, this`log
      ensures SameValve(old(log), log)
      ensures f.Proceed? ==> At(k)
      ensures !f.Proceed? ==> At(Stop(f))
    {
      hide At, MustAll, When, Armed;
      f := Attempt(ClearVocab, Must(BeginNodeLoad, When(w.freshDb, [BeginParseLoad], k)));
      if !f.Proceed? {
        return;
      }
      f := External(BeginNodeLoad, When(w.freshDb, [BeginParseLoad], k), Stop(Throw));
      if !f.Proceed? {
        return;
      }
      f := CallsIf(w.freshDb, [BeginParseLoad], k);
    }

    method Unload(w: FullWorld, ghost k: Script) returns (f: Fate)
      requires At(Unloading(w, k))
      modifies this`calls, this`log
      ensures SameValve(old(log), log)
      ensures f.Proceed? ==> At(k)
      ensures !f.Proceed? ==> At(Stop(f))
    {
      hide At, MustAll, When, Armed;
      f := CallsIf(w.freshDb, [EndParseLoad], Must(EndNodeLoad, k));
      if !f.Proceed? {
        return;
      }
      f := External(EndNodeLoad, k, Stop(Throw));
    }

    /** Everything between extraction and the closing calls. */
    method Resolve(w: FullWorld, fastInit: bool, ghost k: Script)
      returns (f: Fate, restore: bool, again: int, armed: bool)
      requires fastInit == FastInit(w) && At(Resolution(w, k)) && !Armed(log)
      modifies this`calls, this`log, this`interval, this`journal, this`synchronous
      ensures f.Proceed? ==> At(k)
      ensures !f.Proceed? ==> At(Stop(f))
      ensures restore ==> fastInit && again == old(interval)
      ensures !restore ==> interval == old(interval)
      ensures !fastInit ==> journal == old(journal) && synchronous == old(synchronous)
      ensures armed == Armed(log) && (armed ==> fastInit && Deferred())
    {
      hide At, Armed, MustAll;
      restore, again, armed := false, 0, false;
      ghost var linking := Linking(k);
      f := Calls([Reinitialize, PostExtract, CountUnresolved],
        if FastInit(w) && w.poolRuns then BackToWal(linking) else linking);
      if !f.Proceed? {
        return;
      }
      if fastInit && w.poolRuns {
        f, restore, again, armed := ReturnToWal(linking);
        if f.Kill? {
          return;
        }
      }
      f := Calls([ResolveBatched, ResolveChained, ResolveDeferred, Maintain, Recount],
        Call(StampVersion, Advisory(StampExtraction, k), k));
      if !f.Proceed? {
        return;
      }
      f := External(StampVersion, Advisory(StampExtraction, k), k);
      if f.Proceed? {
        f := Attempt(StampExtraction, k);
      } else if f.Throw? {
        f := Proceed;
      }
    }

    /** Before a parallel resolution: the durable journal, with checkpoints put off; errors keep the current mode. */
    method ReturnToWal(ghost k: Script) returns (f: Fate, restore: bool, again: int, armed: bool)
      requires At(BackToWal(k)) && !Armed(log)
      modifies this`calls, this`log, this`interval, this`journal, this`synchronous
      ensures !f.Kill? ==> At(k)
      ensures f.Kill? ==> At(Stop(Kill))
      ensures restore ==> again == old(interval)
      ensures !restore ==> interval == old(interval)
      ensures armed == Armed(log) && (armed ==> Deferred())
    {
      hide At, Armed;
      restore, again, armed := false, 0, false;
      f := External(PragmaSynchronous, Call(PragmaJournal, Call(PutOffCheckpoints, Advisory(StartValve, k), k), k), k);
      if !f.Proceed? {
        return;
      }
      synchronous := Normal;
      f := External(PragmaJournal, Call(PutOffCheckpoints, Advisory(StartValve, k), k), k);
      if !f.Proceed? {
        return;
      }
      journal := Wal;
      again := interval;
      f := External(PutOffCheckpoints, Advisory(StartValve, k), k);
      if !f.Proceed? {
        return;
      }
      interval := 0;
      restore := true;
      f := External(StartValve, k, k);
      armed := f.Proceed?;
    }

    /** The git record, the verdict and the freshness record. */
    method Close(r: IndexResult) returns (f: Fate)
      requires At(Closing(r))
      modifies this`calls, this`log, this`indexState
      ensures At(Stop(f)) && SameValve(old(log), log)
    {
      ghost var finale := Finale(r.success);
      f := CallsIf(
        r.success && r.errored == 0 && (r.discovered.None? || r.indexed + r.skipped >= r.discovered.value),
        [FinishGit], Recording(r, finale));
      if !f.Proceed? {
        return;
      }
      f := Reconcile(r, finale);
      if f.Kill? {
        return;
      }
      if r.success {
        f := Attempt(Freshness, Stop(Proceed));
      }
    }

    /** Recording the verdict; any failure is swallowed. */
    method Reconcile(r: IndexResult, ghost k: Script) returns (f: Fate)
      requires At(Recording(r, k))
      modifies this`calls, this`log, this`indexState
      ensures SameValve(old(log), log)
      ensures f.Proceed? ==> At(k)
      ensures !f.Proceed? ==> f.Kill? && At(Stop(f))
    {
      if !r.success {
        f := SetIndexState(Failed, k, k);
      } else {
        var accounted := r.indexed + r.skipped + r.errored;
        var shortfall := if r.discovered.Some? then r.discovered.value - accounted else 0;
        var v := if r.discovered.Some? && shortfall > 0 then Partial else Complete;
        f := SetIndexState(v, Noting(r, k), k);
        if f.Proceed? && r.discovered.Some? {
          f := External(NoteDiscovered, Advisory(NoteAccounted, k), k);
          if f.Proceed? {
            f := Attempt(NoteAccounted, k);
          }
        }
      }
      f := if f.Kill? then Kill else Proceed;
    }

    // -------------------------------------------------------------- sync

    method Sync(w: SyncWorld) returns (out: Outcome)
      modifies this
      ensures SyncRun(old(State()), State(), w, out, log, drain)
      ensures Answers(log, oracle, old(calls)) && DrainAnswers(log, drain, oracle, old(calls))
      ensures calls == old(calls) + |log| + if drain.Some? then 1 else 0
    {
      if !w.lockFree {
        log, drain := [], None;
        return Refused;
      }
      out := LockedSync(w);
    }

    method LockedSync(w: SyncWorld) returns (out: Outcome)
      requires w.lockFree
      modifies this
      ensures SyncRun(old(State()), State(), w, out, log, drain)
      ensures Answers(log, oracle, old(calls)) && DrainAnswers(log, drain, oracle, old(calls))
      ensures calls == old(calls) + |log| + if drain.Some? then 1 else 0
    {
      hide At, SyncScript, Walk, StateAfter, Answers, DrainAnswers, RunTo;
      locked := true;
      var deferWal := !w.noWalDefer && journal == Wal;
      var prior := PutOff(deferWal);
      Begin(SyncScript(w, deferWal, indexState));
      var f := SyncBody(w, deferWal);
      out := Finish(f, deferWal, deferWal, prior, false, old(State()));
    }

    method SyncBody(w: SyncWorld, valve: bool) returns (f: Fate)
      requires At(SyncScript(w, valve, indexState))
      modifies this`calls, this`log, this`indexState
      ensures At(Stop(f))
    {
      f := External(ProbeVocab, Syncing(w, valve, indexState, w.vocabEmpty), Syncing(w, valve, indexState, false));
      if f.Kill? {
        return;
      }
      var vocabWasEmpty := f.Proceed? && w.vocabEmpty;
      ghost var closing := SyncClosing(w, indexState);
      ghost var healing := Healing(w, vocabWasEmpty, closing);
      ghost var refreshing := Refreshing(w, Sweeping(w, healing));
      f := Calls([BeginGit, SyncFiles], When(valve, [Fold], refreshing));
      if !f.Proceed? {
        return;
      }
      f := CallsIf(valve, [Fold], refreshing);
      if !f.Proceed? {
        return;
      }
      f := Refresh(w, Sweeping(w, healing));
      if !f.Proceed? {
        return;
      }
      f := Sweep(w, healing);
      if !f.Proceed? {
        return;
      }
      if vocabWasEmpty {
        f := External(CountNodes, if w.hasNodes then Advisory(BackfillVocab, closing) else closing, closing);
        if f.Proceed? && w.hasNodes {
          f := Attempt(BackfillVocab, closing);
        }
        if f.Kill? {
          return;
        }
      }
      f := CloseSync(w);
    }

    /** Cross-file finalization, and resolution of what changed. */
    method Refresh(w: SyncWorld, ghost k: Script) returns (f: Fate)
      requires At(Refreshing(w, k))
      modifies this`calls, this`log
      ensures f.Proceed? ==> At(k)
      ensures !f.Proceed? ==> At(Stop(f))
    {
      if w.changed {
        f := Calls([PostExtract], Resolving(w, k));
        if !f.Proceed? {
          return;
        }
        if w.scoped {
          f := Calls([LoadRefs, ResolveScoped, LoadRetryable], When(w.retryable, [ResolveRetryable], k));
          if !f.Proceed? {
            return;
          }
          f := CallsIf(w.retryable, [ResolveRetryable], k);
        } else {
          f := Calls([CountUnresolved, ResolveBatched], k);
        }
      } else {
        f := CallsIf(w.removed, [ClearCaches], k);
      }
    }

    method Sweep(w: SyncWorld, ghost k: Script) returns (f: Fate)
      requires At(Sweeping(w, k))
      modifies this`calls, this`log
      ensures f.Proceed? ==> At(k)
      ensures !f.Proceed? ==> At(Stop(f))
    {
      ghost var swept := When(w.orphans, [ResolveOrphans], Linked(w, k));
      f := CallsIf(w.rebinds, [Rebind], MustAll([CountOrphans], swept));
      if !f.Proceed? {
        return;
      }
      f := Calls([CountOrphans], swept);
      if !f.Proceed? {
        return;
      }
      f := CallsIf(w.orphans, [ResolveOrphans], Linked(w, k));
      if !f.Proceed? {
        return;
      }
      ghost var maintained := When(w.changed || w.removed || w.orphans, [Maintain], k);
      f := CallsIf(w.changed || w.orphans, [ResolveChained, ResolveDeferred], maintained);
      if !f.Proceed? {
        return;
      }
      f := CallsIf(w.changed || w.removed || w.orphans, [Maintain], k);
    }

    /** An interrupted index is closed, and the git and freshness records follow. */
    method CloseSync(w: SyncWorld) returns (f: Fate)
      requires At(SyncClosing(w, indexState))
      modifies this`calls, this`log, this`indexState
      ensures At(Stop(f))
    {
      ghost var finale := SyncFinale();
      if w.fullReconcile {
        f := External(ReadState,
          if indexState == Some(Indexing) then Advisory(SetState(Complete), finale) else finale, Stop(Throw));
        if !f.Proceed? {
          return;
        }
        if indexState == Some(Indexing) {
          f := SetIndexState(Complete, finale, finale);
          if f.Kill? {
            return;
          }
        }
      }
      f := External(FinishGit, Advisory(Freshness, Stop(Proceed)), Stop(Throw));
      if !f.Proceed? {
        return;
      }
      f := Attempt(Freshness, Stop(Proceed));
    }
  }
}
