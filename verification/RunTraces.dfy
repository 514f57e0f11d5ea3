// What a run writes and calls, told by its result's own counts and as plain lists of calls.

module RunTraces {
  import opened Wrappers
  import opened RunScripts
  import opened RunProtocol
  import opened RunTheorems
  import opened Seqs

  // ---------------------------------------------------------------- which state a verdict is

  /** Files were silently dropped: extraction accounted for fewer than were discovered. */
  predicate Short(r: IndexResult) { r.discovered.Some? && r.discovered.value > r.indexed + r.skipped + r.errored }

  lemma RecordedIsFinal(before: Db, after: Db, w: FullWorld, out: Outcome, log: Log, drain: Option<Fate>)
    requires FullRun(before, after, w, out, log, drain) && w.lockFree
    ensures Finals(log) <==> Recorded(w, log)
  {
    hide FullRun, FullNeeds;
    if Finals(log) {
      var r :| r in log && Final(r.step) && r.fate.Proceed?;
      var i :| 0 <= i < |log| && log[i] == r;
      VerdictIsEarned(before, after, w, out, log, drain, i);
    } else {
      var x := Reply(SetState(Verdict(w.answer)), Proceed);
      assert Final(x.step);
    }
  }

  /**
   * A full run that recorded a final state leaves `failed` exactly if extraction
   * did not succeed, `partial` exactly if it succeeded short of what was
   * discovered, and `complete` exactly otherwise.
   */
  lemma VerdictByCounts(before: Db, after: Db, w: FullWorld, out: Outcome, log: Log, drain: Option<Fate>)
    requires FullRun(before, after, w, out, log, drain) && w.lockFree && Finals(log)
    ensures after.indexState == Some(Failed) <==> !w.answer.success
    ensures after.indexState == Some(Partial) <==> w.answer.success && Short(w.answer)
    ensures after.indexState == Some(Complete) <==> w.answer.success && !Short(w.answer)
  {
    hide FullRun;
    RecordedIsFinal(before, after, w, out, log, drain);
    FullStateExact(before, after, w, out, log, drain);
  }

  /** The git record is made, past a verdict or not, only for a result that is whole and without errors; then before the verdict. */
  lemma GitRecordIsClean(before: Db, after: Db, w: FullWorld, out: Outcome, log: Log, drain: Option<Fate>)
    requires FullRun(before, after, w, out, log, drain) && w.lockFree
    ensures (exists r <- log :: r.step == FinishGit) ==> Clean(w.answer)
    ensures forall i :: 0 <= i < |log| && Final(log[i].step) ==>
              (Clean(w.answer) <==> Reply(FinishGit, Proceed) in log[..i])
  {
    hide FullRun, FullNeeds;
    if !Clean(w.answer) {
      NoGitRecord(before, after, w, out, log, drain);
    }
    forall i | 0 <= i < |log| && Final(log[i].step)
      ensures Clean(w.answer) <==> Reply(FinishGit, Proceed) in log[..i]
    {
      VerdictIsEarned(before, after, w, out, log, drain, i);
      if Clean(w.answer) {
        OwesGitRecord(w, HasValve(before, w));
      } else {
        assert log == log[..i] + log[i..];
      }
    }
  }

  /** Succeeded, no file in error, and every discovered file indexed or skipped. */
  predicate Clean(r: IndexResult) {
    r.success && r.errored == 0 && (r.discovered.Some? ==> r.indexed + r.skipped >= r.discovered.value)
  }

  lemma OwesGitRecord(w: FullWorld, valve: bool)
    requires Clean(w.answer)
    ensures FinishGit in FullNeeds(w, valve)
  {}

  lemma NoGitRecord(before: Db, after: Db, w: FullWorld, out: Outcome, log: Log, drain: Option<Fate>)
    requires FullRun(before, after, w, out, log, drain) && w.lockFree && !Clean(w.answer)
    ensures forall r <- log :: r.step != FinishGit
  {
    var valve := HasValve(before, w);
    FullAvoids(w, valve);
    AvoidsRun(FullScript(w, valve), FinishGit, log);
  }

  /** The script never makes this call. */
  predicate Avoids(s: Script, x: Step) { s.Call? ==> s.step != x && Avoids(s.done, x) && Avoids(s.threw, x) }

  lemma {:induction false} AvoidsRun(s: Script, x: Step, log: Log)
    requires Avoids(s, x) && Walk(s, log).Stop?
    ensures forall r <- log :: r.step != x
    decreases |log|
  {
    if s.Call? {
      Start(s, log);
      AvoidsRun(Next(s, log[0]), x, log[1..]);
      assert log == [log[0]] + log[1..];
    } else {
      if s.Astray? {
        Lost(log);
      }
      Stopped(s.fate, log);
    }
  }

  lemma {:induction false} AvoidsAll(steps: seq<Step>, k: Script, x: Step)
    requires x !in steps && Avoids(k, x)
    ensures Avoids(MustAll(steps, k), x)
    decreases |steps|
  {
    if steps != [] {
      AvoidsAll(steps[1..], k, x);
    }
  }

  lemma FullAvoids(w: FullWorld, valve: bool)
    requires !Clean(w.answer)
    ensures Avoids(FullScript(w, valve), FinishGit)
  {
    hide Closing, Resolution, MustAll, Unloading;
    var x, closing := FinishGit, Closing(w.answer);
    ClosingAvoids(w.answer);
    ResolutionAvoids(w, closing);
    var works := if Works(w.answer) then Resolution(w, closing) else closing;
    AvoidsAll([Fold], works, x);
    UnloadingAvoids(w, Extracted(w, valve));
    UnloadingAvoids(w, Stop(Throw));
    AvoidsAll([BeginParseLoad], Extraction(w, valve), x);
    assert Avoids(Must(BeginNodeLoad, When(w.freshDb, [BeginParseLoad], Extraction(w, valve))), x);
    assert Avoids(Loading(w, valve), x);
    AvoidsAll([BeginGit, CountBefore], Advisory(SetState(Indexing), Loading(w, valve)), x);
  }

  lemma UnloadingAvoids(w: FullWorld, k: Script)
    requires Avoids(k, FinishGit)
    ensures Avoids(Unloading(w, k), FinishGit)
  {
    AvoidsAll([EndParseLoad], Must(EndNodeLoad, k), FinishGit);
  }

  lemma ClosingAvoids(r: IndexResult)
    requires !Clean(r)
    ensures Avoids(Closing(r), FinishGit)
  {
    assert Avoids(Finale(r.success), FinishGit);
    assert Avoids(Advisory(NoteAccounted, Finale(r.success)), FinishGit);
    assert Avoids(Noting(r, Finale(r.success)), FinishGit);
  }

  lemma ResolutionAvoids(w: FullWorld, k: Script)
    requires Avoids(k, FinishGit)
    ensures Avoids(Resolution(w, k), FinishGit)
  {
    hide MustAll;
    var linking := Linking(k);
    AvoidsAll(RELINK, Call(StampVersion, Advisory(StampExtraction, k), k), FinishGit);
    assert Avoids(Advisory(StartValve, linking), FinishGit);
    assert Avoids(Call(PutOffCheckpoints, Advisory(StartValve, linking), linking), FinishGit);
    AvoidsAll(REINIT, if FastInit(w) && w.poolRuns then BackToWal(linking) else linking, FinishGit);
  }

  // ---------------------------------------------------------------- runs in which nothing fails, call by call

  function StepsIn(log: Log): seq<Step> { if log == [] then [] else [log[0].step] + StepsIn(log[1..]) }

  /** The calls of a script when each of them proceeds. */
  function SmoothSteps(s: Script): seq<Step> { if s.Call? then [s.step] + SmoothSteps(s.done) else [] }

  lemma {:induction false} SmoothLog(s: Script, log: Log)
    requires Smooth(log) && Walk(s, log).Stop?
    ensures StepsIn(log) == SmoothSteps(s)
    decreases |log|
  {
    if s.Call? {
      Start(s, log);
      SmoothLog(s.done, log[1..]);
    } else {
      if s.Astray? {
        Lost(log);
      }
      Stopped(s.fate, log);
    }
  }

  lemma {:induction false} StepsOfAll(steps: seq<Step>, k: Script)
    ensures SmoothSteps(MustAll(steps, k)) == steps + SmoothSteps(k)
    decreases |steps|
  {
    if steps == [] {
      assert [] + SmoothSteps(k) == SmoothSteps(k);
    } else {
      StepsOfAll(steps[1..], k);
      assert [steps[0]] + (steps[1..] + SmoothSteps(k)) == steps + SmoothSteps(k);
    }
  }

  function If(c: bool, steps: seq<Step>): seq<Step> { if c then steps else [] }

  lemma StepsOfWhen(c: bool, steps: seq<Step>, k: Script)
    ensures SmoothSteps(When(c, steps, k)) == If(c, steps) + SmoothSteps(k)
  {
    StepsOfAll(steps, k);
    assert [] + SmoothSteps(k) == SmoothSteps(k);
  }

  /** The calls between extraction and the closing ones. */
  function ResolvingCalls(fast: bool): seq<Step> {
    [Reinitialize, PostExtract, CountUnresolved]
    + (If(fast, [PragmaSynchronous, PragmaJournal, PutOffCheckpoints, StartValve])
    + ([ResolveBatched, ResolveChained, ResolveDeferred, Maintain, Recount]
    + [StampVersion, StampExtraction]))
  }

  function ClosingCalls(r: IndexResult): seq<Step> {
    If(Clean(r), [FinishGit])
    + (if !r.success then [SetState(Failed)]
       else [SetState(if Short(r) then Partial else Complete)] + If(r.discovered.Some?, [NoteDiscovered, NoteAccounted]) + [Freshness])
  }

  function FullCalls(w: FullWorld, wal: bool): seq<Step> {
    var fast := w.freshDb && !w.noFastInit;
    [BeginGit, CountBefore]
    + ([SetState(Indexing)]
    + ([ClearVocab]
    + ([BeginNodeLoad]
    + (If(w.freshDb, [BeginParseLoad])
    + ([Extract]
    + (If(w.freshDb, [EndParseLoad])
    + ([EndNodeLoad]
    + (If(wal && !fast && !w.noWalDefer, [Fold])
    + (If(w.answer.success && w.answer.indexed > 0, ResolvingCalls(fast && w.poolRuns))
    + ClosingCalls(w.answer))))))))))
  }

  /** Where no call fails a full run makes exactly these calls, in this order. */
  lemma FullCallsExact(before: Db, after: Db, w: FullWorld, out: Outcome, log: Log, drain: Option<Fate>)
    requires FullRun(before, after, w, out, log, drain) && w.lockFree && Smooth(log)
    ensures StepsIn(log) == FullCalls(w, before.journal == Wal)
  {
    hide FullScript, FullCalls, SmoothSteps;
    var valve := HasValve(before, w);
    SmoothLog(FullScript(w, valve), log);
    FullSteps(w, valve, before.journal == Wal);
  }

  lemma FullSteps(w: FullWorld, valve: bool, wal: bool)
    requires valve == (wal && !(w.freshDb && !w.noFastInit) && !w.noWalDefer)
    ensures SmoothSteps(FullScript(w, valve)) == FullCalls(w, wal)
  {
    hide Closing, Resolution, MustAll, When, ResolvingCalls, ClosingCalls, Unloading, SmoothSteps;
    var closing := Closing(w.answer);
    ClosingSteps(w.answer);
    ResolutionSteps(w, closing);
    var works := if Works(w.answer) then Resolution(w, closing) else closing;
    StepsOfWhen(valve, [Fold], works);
    UnloadingSteps(w, Extracted(w, valve));
    StepsOfWhen(w.freshDb, [BeginParseLoad], Extraction(w, valve));
    StepsOfAll([BeginGit, CountBefore], Advisory(SetState(Indexing), Loading(w, valve)));
    OneCall(Extract, Unloading(w, Extracted(w, valve)), Unloading(w, Stop(Throw)));
    var loaded := When(w.freshDb, [BeginParseLoad], Extraction(w, valve));
    OneCall(BeginNodeLoad, loaded, Stop(Throw));
    OneCall(ClearVocab, Must(BeginNodeLoad, loaded), Must(BeginNodeLoad, loaded));
    OneCall(SetState(Indexing), Loading(w, valve), Loading(w, valve));
    NoneFirst(SmoothSteps(closing));
  }

  lemma OneCall(x: Step, done: Script, threw: Script)
    ensures SmoothSteps(Call(x, done, threw)) == [x] + SmoothSteps(done)
  {}

  lemma NoneFirst(steps: seq<Step>)
    ensures [] + steps == steps
  {}

  lemma UnloadingSteps(w: FullWorld, k: Script)
    ensures SmoothSteps(Unloading(w, k)) == If(w.freshDb, [EndParseLoad]) + ([EndNodeLoad] + SmoothSteps(k))
  {
    StepsOfWhen(w.freshDb, [EndParseLoad], Must(EndNodeLoad, k));
  }

  lemma ClosingSteps(r: IndexResult)
    ensures SmoothSteps(Closing(r)) == ClosingCalls(r)
  {
    hide When;
    var finale := Finale(r.success);
    StepsOfWhen(Finishes(r), [FinishGit], Recording(r, finale));
    assert SmoothSteps(finale) == If(r.success, [Freshness]);
    assert SmoothSteps(Noting(r, finale)) == If(r.discovered.Some?, [NoteDiscovered, NoteAccounted]) + SmoothSteps(finale);
  }

  lemma ResolutionSteps(w: FullWorld, k: Script)
    ensures SmoothSteps(Resolution(w, k)) == ResolvingCalls(w.freshDb && !w.noFastInit && w.poolRuns) + SmoothSteps(k)
  {
    hide MustAll;
    var stamping := Call(StampVersion, Advisory(StampExtraction, k), k);
    StepsOfAll(RELINK, stamping);
    var linking := Linking(k);
    var back := if FastInit(w) && w.poolRuns then BackToWal(linking) else linking;
    assert SmoothSteps(stamping) == [StampVersion, StampExtraction] + SmoothSteps(k);
    BackSteps(linking);
    StepsOfAll(REINIT, back);
    var fast := w.freshDb && !w.noFastInit && w.poolRuns;
    NoneFirst(SmoothSteps(linking));
    Regroup(RELINK, [StampVersion, StampExtraction], SmoothSteps(k));
    Regroup(If(fast, [PragmaSynchronous, PragmaJournal, PutOffCheckpoints, StartValve]), RELINK + [StampVersion, StampExtraction], SmoothSteps(k));
    Regroup(REINIT, If(fast, [PragmaSynchronous, PragmaJournal, PutOffCheckpoints, StartValve]) + (RELINK + [StampVersion, StampExtraction]), SmoothSteps(k));
  }

  lemma BackSteps(k: Script)
    ensures SmoothSteps(BackToWal(k)) == [PragmaSynchronous, PragmaJournal, PutOffCheckpoints, StartValve] + SmoothSteps(k)
  {
    var three := Call(PutOffCheckpoints, Advisory(StartValve, k), k);
    assert SmoothSteps(three) == [PutOffCheckpoints, StartValve] + SmoothSteps(k);
  }

  function SyncCalls(w: SyncWorld, wal: bool, interrupted: bool): seq<Step> {
    [ProbeVocab]
    + ([BeginGit, SyncFiles]
    + (If(wal && !w.noWalDefer, [Fold])
    + (RefreshCalls(w)
    + (SweepCalls(w)
    + (HealCalls(w)
    + SyncClosingCalls(w, interrupted))))))
  }

  function HealCalls(w: SyncWorld): seq<Step> { If(w.vocabEmpty, [CountNodes] + If(w.hasNodes, [BackfillVocab])) }

  function SyncClosingCalls(w: SyncWorld, interrupted: bool): seq<Step> {
    If(w.fullReconcile, [ReadState] + If(interrupted, [SetState(Complete)])) + [FinishGit, Freshness]
  }

  function RefreshCalls(w: SyncWorld): seq<Step> {
    if w.changed && w.scoped then [PostExtract, LoadRefs, ResolveScoped, LoadRetryable] + If(w.retryable, [ResolveRetryable])
    else if w.changed then [PostExtract, CountUnresolved, ResolveBatched]
    else If(w.removed, [ClearCaches])
  }

  function SweepCalls(w: SyncWorld): seq<Step> {
    If(w.rebinds, [Rebind])
    + ([CountOrphans]
    + (If(w.orphans, [ResolveOrphans])
    + (If(w.changed || w.orphans, [ResolveChained, ResolveDeferred])
    + If(w.changed || w.removed || w.orphans, [Maintain]))))
  }

  /** Where no call fails a sync makes exactly these calls, in this order. */
  lemma SyncCallsExact(before: Db, after: Db, w: SyncWorld, out: Outcome, log: Log, drain: Option<Fate>)
    requires SyncRun(before, after, w, out, log, drain) && w.lockFree && Smooth(log)
    ensures StepsIn(log) == SyncCalls(w, before.journal == Wal, before.indexState == Some(Indexing))
  {
    hide SyncScript, SyncCalls, SmoothSteps;
    var valve := SyncHasValve(before, w);
    SmoothLog(SyncScript(w, valve, before.indexState), log);
    SyncSteps(w, valve, before.journal == Wal, before.indexState);
  }

  lemma SyncSteps(w: SyncWorld, valve: bool, wal: bool, state: Option<IndexState>)
    requires valve == (wal && !w.noWalDefer)
    ensures SmoothSteps(SyncScript(w, valve, state)) == SyncCalls(w, wal, state == Some(Indexing))
  {
    hide Refreshing, Sweeping, Healing, SyncClosing, When, MustAll, RefreshCalls, SweepCalls, HealCalls, SyncClosingCalls;
    hide SmoothSteps, If;
    var closing := SyncClosing(w, state);
    var healing := Healing(w, w.vocabEmpty, closing);
    SyncClosingSteps(w, state);
    HealingSteps(w, closing);
    SweepingSteps(w, healing);
    RefreshingSteps(w, Sweeping(w, healing));
    var refreshing := Refreshing(w, Sweeping(w, healing));
    StepsOfWhen(valve, [Fold], refreshing);
    StepsOfAll([BeginGit, SyncFiles], When(valve, [Fold], refreshing));
    OneCall(ProbeVocab, Syncing(w, valve, state, w.vocabEmpty), Syncing(w, valve, state, false));
  }

  lemma SyncClosingSteps(w: SyncWorld, state: Option<IndexState>)
    ensures SmoothSteps(SyncClosing(w, state))
         == SyncClosingCalls(w, state == Some(Indexing))
  {
    assert SmoothSteps(SyncFinale()) == [FinishGit, Freshness];
    assert SmoothSteps(Advisory(SetState(Complete), SyncFinale())) == [SetState(Complete), FinishGit, Freshness];
  }

  lemma HealingSteps(w: SyncWorld, k: Script)
    ensures SmoothSteps(Healing(w, w.vocabEmpty, k))
         == HealCalls(w) + SmoothSteps(k)
  {
    assert SmoothSteps(Advisory(BackfillVocab, k)) == [BackfillVocab] + SmoothSteps(k);
  }

  lemma SweepingSteps(w: SyncWorld, k: Script)
    ensures SmoothSteps(Sweeping(w, k)) == SweepCalls(w) + SmoothSteps(k)
  {
    hide When, MustAll, SmoothSteps, If;
    var c1, c2, c3 := w.changed || w.removed || w.orphans, w.changed || w.orphans, w.orphans;
    var maintained := When(c1, [Maintain], k);
    StepsOfWhen(c1, [Maintain], k);
    StepsOfWhen(c2, [ResolveChained, ResolveDeferred], maintained);
    StepsOfWhen(c3, [ResolveOrphans], Linked(w, k));
    StepsOfAll([CountOrphans], When(c3, [ResolveOrphans], Linked(w, k)));
    StepsOfWhen(w.rebinds, [Rebind], MustAll([CountOrphans], When(c3, [ResolveOrphans], Linked(w, k))));
    var last := If(c1, [Maintain]);
    var linked := If(c2, [ResolveChained, ResolveDeferred]) + last;
    var orphans := If(c3, [ResolveOrphans]) + linked;
    Regroup(If(c2, [ResolveChained, ResolveDeferred]), last, SmoothSteps(k));
    Regroup(If(c3, [ResolveOrphans]), linked, SmoothSteps(k));
    Regroup([CountOrphans], orphans, SmoothSteps(k));
    Regroup(If(w.rebinds, [Rebind]), [CountOrphans] + orphans, SmoothSteps(k));
  }

  lemma RefreshingSteps(w: SyncWorld, k: Script)
    ensures SmoothSteps(Refreshing(w, k)) == RefreshCalls(w) + SmoothSteps(k)
  {
    hide When, MustAll;
    StepsOfWhen(w.retryable, [ResolveRetryable], k);
    StepsOfAll([LoadRefs, ResolveScoped, LoadRetryable], When(w.retryable, [ResolveRetryable], k));
    StepsOfAll([CountUnresolved, ResolveBatched], k);
    StepsOfAll([PostExtract], Resolving(w, k));
    StepsOfWhen(w.removed, [ClearCaches], k);
  }

  // ---------------------------------------------------------------- whose exceptions end a run

  predicate AllThrow(s: Script) {
    match s
    case Stop(f) => f.Throw?
    case Call(_, done, threw) => AllThrow(done) && AllThrow(threw)
    case Astray => true
  }

  /** An exception of one of these calls is never lost, one of any other call always. */
  predicate Honest(s: Script, fatal: set<Step>) {
    match s
    case Stop(f) => f.Proceed?
    case Call(x, done, threw) => Honest(done, fatal) && if x in fatal then AllThrow(threw) else Honest(threw, fatal)
    case Astray => true
  }

  predicate Cut(log: Log) { exists r <- log :: r.fate.Kill? }

  predicate Fell(log: Log, fatal: set<Step>) { exists r <- log :: r.step in fatal && r.fate.Throw? }

  lemma FirstReply(log: Log, fatal: set<Step>)
    requires log != []
    ensures Cut(log) <==> log[0].fate.Kill? || Cut(log[1..])
    ensures Fell(log, fatal) <==> (log[0].step in fatal && log[0].fate.Throw?) || Fell(log[1..], fatal)
  {
    assert log == [log[0]] + log[1..];
  }

  lemma {:induction false} AllThrowRun(s: Script, log: Log)
    requires AllThrow(s) && Walk(s, log).Stop?
    ensures Walk(s, log) == Stop(if Cut(log) then Kill else Throw)
    decreases |log|
  {
    if s.Call? {
      Start(s, log);
      FirstReply(log, {});
      if log[0].fate.Kill? {
        Stopped(Kill, log[1..]);
      } else {
        AllThrowRun(Next(s, log[0]), log[1..]);
      }
    } else {
      if s.Astray? {
        Lost(log);
      }
      Stopped(s.fate, log);
    }
  }

  lemma {:induction false} HonestRun(s: Script, fatal: set<Step>, log: Log)
    requires Honest(s, fatal) && Walk(s, log).Stop?
    ensures Walk(s, log) == Stop(if Cut(log) then Kill else if Fell(log, fatal) then Throw else Proceed)
    decreases |log|
  {
    hide Cut, Fell;
    if s.Call? {
      Start(s, log);
      FirstReply(log, fatal);
      if log[0].fate.Kill? {
        Stopped(Kill, log[1..]);
      } else if log[0].fate.Throw? && s.step in fatal {
        AllThrowRun(s.threw, log[1..]);
      } else {
        HonestRun(Next(s, log[0]), fatal, log[1..]);
      }
    } else {
      if s.Astray? {
        Lost(log);
      }
      Stopped(s.fate, log);
      NothingBefore(fatal);
    }
  }

  lemma NothingBefore(fatal: set<Step>)
    ensures !Cut([]) && !Fell([], fatal)
  {}

  /** The calls of a full run that are not advisory. */
  const FULL_FATAL: set<Step> :=
    {BeginGit, CountBefore, BeginNodeLoad, BeginParseLoad, Extract, EndParseLoad, EndNodeLoad, Fold, Reinitialize, PostExtract,
     CountUnresolved, ResolveBatched, ResolveChained, ResolveDeferred, Maintain, Recount, FinishGit}

  /** The same for a sync. */
  const SYNC_FATAL: set<Step> :=
    {BeginGit, SyncFiles, Fold, PostExtract, LoadRefs, ResolveScoped, LoadRetryable, ResolveRetryable, CountUnresolved,
     ResolveBatched, ClearCaches, Rebind, CountOrphans, ResolveOrphans, ResolveChained, ResolveDeferred, Maintain, ReadState, FinishGit}

  lemma {:induction false} HonestAll(steps: seq<Step>, k: Script, fatal: set<Step>)
    requires Honest(k, fatal) && forall x <- steps :: x in fatal
    ensures Honest(MustAll(steps, k), fatal)
    decreases |steps|
  {
    if steps != [] {
      HonestAll(steps[1..], k, fatal);
    }
  }

  lemma HonestWhen(c: bool, steps: seq<Step>, k: Script, fatal: set<Step>)
    requires Honest(k, fatal) && forall x <- steps :: x in fatal
    ensures Honest(When(c, steps, k), fatal)
  {
    HonestAll(steps, k, fatal);
  }

  lemma {:induction false} FallingAll(steps: seq<Step>, k: Script)
    requires AllThrow(k)
    ensures AllThrow(MustAll(steps, k))
    decreases |steps|
  {
    if steps != [] {
      FallingAll(steps[1..], k);
    }
  }

  lemma HonestFull(w: FullWorld, valve: bool)
    ensures Honest(FullScript(w, valve), FULL_FATAL)
  {
    hide Closing, Resolution, When, MustAll;
    var fatal, closing := FULL_FATAL, Closing(w.answer);
    HonestClosing(w.answer);
    HonestResolution(w, closing);
    HonestWhen(valve, [Fold], if Works(w.answer) then Resolution(w, closing) else closing, fatal);
    HonestWhen(w.freshDb, [EndParseLoad], Must(EndNodeLoad, Extracted(w, valve)), fatal);
    FallingUnload(w);
    HonestWhen(w.freshDb, [BeginParseLoad], Extraction(w, valve), fatal);
    var loaded := When(w.freshDb, [BeginParseLoad], Extraction(w, valve));
    assert Honest(Must(BeginNodeLoad, loaded), fatal);
    assert Honest(Loading(w, valve), fatal);
    HonestAll([BeginGit, CountBefore], Advisory(SetState(Indexing), Loading(w, valve)), fatal);
  }

  lemma FallingUnload(w: FullWorld)
    ensures AllThrow(Unloading(w, Stop(Throw)))
  {
    FallingAll([EndParseLoad], Must(EndNodeLoad, Stop(Throw)));
  }

  lemma HonestClosing(r: IndexResult)
    ensures Honest(Closing(r), FULL_FATAL)
  {
    hide When;
    var finale := Finale(r.success);
    assert Honest(finale, FULL_FATAL);
    assert Honest(Advisory(NoteAccounted, finale), FULL_FATAL);
    assert Honest(Noting(r, finale), FULL_FATAL);
    HonestWhen(Finishes(r), [FinishGit], Recording(r, finale), FULL_FATAL);
  }

  lemma HonestResolution(w: FullWorld, k: Script)
    requires Honest(k, FULL_FATAL)
    ensures Honest(Resolution(w, k), FULL_FATAL)
  {
    hide MustAll;
    var linking := Linking(k);
    HonestAll(RELINK, Call(StampVersion, Advisory(StampExtraction, k), k), FULL_FATAL);
    assert Honest(Advisory(StartValve, linking), FULL_FATAL);
    assert Honest(Call(PutOffCheckpoints, Advisory(StartValve, linking), linking), FULL_FATAL);
    HonestAll(REINIT, if FastInit(w) && w.poolRuns then BackToWal(linking) else linking, FULL_FATAL);
  }

  lemma HonestSync(w: SyncWorld, valve: bool, state: Option<IndexState>, heal: bool)
    ensures Honest(Syncing(w, valve, state, heal), SYNC_FATAL)
  {
    hide Refreshing, Sweeping, When, MustAll, Healing;
    var fatal, closing := SYNC_FATAL, SyncClosing(w, state);
    assert Honest(SyncFinale(), fatal);
    assert Honest(closing, fatal);
    var k := Healing(w, heal, closing);
    HonestHealing(w, heal, closing);
    HonestSweeping(w, k);
    HonestRefreshing(w, Sweeping(w, k));
    HonestWhen(valve, [Fold], Refreshing(w, Sweeping(w, k)), fatal);
    HonestAll([BeginGit, SyncFiles], When(valve, [Fold], Refreshing(w, Sweeping(w, k))), fatal);
  }

  lemma HonestHealing(w: SyncWorld, heal: bool, k: Script)
    requires Honest(k, SYNC_FATAL)
    ensures Honest(Healing(w, heal, k), SYNC_FATAL)
  {
    assert Honest(Advisory(BackfillVocab, k), SYNC_FATAL);
  }

  lemma HonestSweeping(w: SyncWorld, k: Script)
    requires Honest(k, SYNC_FATAL)
    ensures Honest(Sweeping(w, k), SYNC_FATAL)
  {
    hide MustAll, When;
    var fatal, maintained := SYNC_FATAL, When(w.changed || w.removed || w.orphans, [Maintain], k);
    HonestWhen(w.changed || w.removed || w.orphans, [Maintain], k, fatal);
    HonestWhen(w.changed || w.orphans, [ResolveChained, ResolveDeferred], maintained, fatal);
    HonestWhen(w.orphans, [ResolveOrphans], Linked(w, k), fatal);
    HonestAll([CountOrphans], When(w.orphans, [ResolveOrphans], Linked(w, k)), fatal);
    HonestWhen(w.rebinds, [Rebind], MustAll([CountOrphans], When(w.orphans, [ResolveOrphans], Linked(w, k))), fatal);
  }

  lemma HonestRefreshing(w: SyncWorld, k: Script)
    requires Honest(k, SYNC_FATAL)
    ensures Honest(Refreshing(w, k), SYNC_FATAL)
  {
    hide MustAll, When;
    var fatal := SYNC_FATAL;
    HonestWhen(w.retryable, [ResolveRetryable], k, fatal);
    HonestAll([LoadRefs, ResolveScoped, LoadRetryable], When(w.retryable, [ResolveRetryable], k), fatal);
    HonestAll([CountUnresolved, ResolveBatched], k, fatal);
    HonestAll([PostExtract], Resolving(w, k), fatal);
    HonestWhen(w.removed, [ClearCaches], k, fatal);
  }

  /** How a full run ends, from its replies: killed, thrown by the drain or by a call that is not advisory, or returned. */
  lemma FullEndExact(before: Db, after: Db, w: FullWorld, out: Outcome, log: Log, drain: Option<Fate>)
    requires FullRun(before, after, w, out, log, drain) && w.lockFree
    ensures out.Killed? <==> Cut(log) || drain == Some(Kill)
    ensures out.Thrown? <==> drain == Some(Throw) || (drain != Some(Kill) && !Cut(log) && Fell(log, FULL_FATAL))
  {
    hide Honest, Walk, FullScript, Cut, Fell, StateAfter;
    HonestFull(w, HasValve(before, w));
    HonestRun(FullScript(w, HasValve(before, w)), FULL_FATAL, log);
  }

  /** The same for a sync. */
  lemma SyncEndExact(before: Db, after: Db, w: SyncWorld, out: Outcome, log: Log, drain: Option<Fate>)
    requires SyncRun(before, after, w, out, log, drain) && w.lockFree
    ensures out.Killed? <==> Cut(log) || drain == Some(Kill)
    ensures out.Thrown? <==> drain == Some(Throw) || (drain != Some(Kill) && !Cut(log) && Fell(log, SYNC_FATAL))
  {
    hide Walk, Cut, Fell, StateAfter, Syncing;
    var valve, state := SyncHasValve(before, w), before.indexState;
    HonestSync(w, valve, state, w.vocabEmpty);
    HonestSync(w, valve, state, false);
    assert Honest(SyncScript(w, valve, state), SYNC_FATAL);
    HonestRun(SyncScript(w, valve, state), SYNC_FATAL, log);
  }
}
