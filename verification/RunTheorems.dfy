// What a full run and a sync leave behind, and what any sequence of runs does.

module RunTheorems {
  import opened Wrappers
  import opened RunScripts
  import opened RunProtocol

  // ---------------------------------------------------------------- the shape of the scripts

  lemma GuardedRecording(r: IndexResult, k: Script, have: set<Step>, need: set<Step>)
    requires need <= have && Guarded(k, Verdict(r), have, need)
    ensures Guarded(Recording(r, k), Verdict(r), have, need)
  {
    var v := Verdict(r);
    if !r.success {
      GuardedAdvisory(SetState(Failed), k, v, have, need);
    } else {
      var written := have + {SetState(v)};
      GuardedMore(k, v, have, written, need);
      if r.discovered.Some? {
        GuardedMore(k, v, written, written + {NoteDiscovered}, need);
        GuardedAdvisory(NoteAccounted, k, v, written + {NoteDiscovered}, need);
      }
    }
  }

  lemma GuardedClosing(r: IndexResult, have: set<Step>, need: set<Step>)
    requires need <= have + if Finishes(r) then {FinishGit} else {}
    ensures Guarded(Closing(r), Verdict(r), have, need)
  {
    var finished := have + if Finishes(r) then StepsOf([FinishGit]) else {};
    assert need <= finished;
    if r.success {
      GuardedAdvisory(Freshness, Stop(Proceed), Verdict(r), finished, need);
    }
    GuardedRecording(r, Finale(r.success), finished, need);
    GuardedWhen(Finishes(r), [FinishGit], Recording(r, Finale(r.success)), Verdict(r), have, need);
  }

  const RELINK := [ResolveBatched, ResolveChained, ResolveDeferred, Maintain, Recount]

  const REINIT := [Reinitialize, PostExtract, CountUnresolved]

  lemma GuardedLinking(k: Script, v: IndexState, have: set<Step>, need: set<Step>)
    requires Guarded(k, v, have + StepsOf(RELINK), need)
    ensures Guarded(Linking(k), v, have, need)
  {
    var linked := have + StepsOf(RELINK);
    GuardedMore(k, v, linked, linked + {StampVersion}, need);
    GuardedAdvisory(StampExtraction, k, v, linked + {StampVersion}, need);
    GuardedAll(RELINK, Call(StampVersion, Advisory(StampExtraction, k), k), v, have, need);
  }

  lemma GuardedBackToWal(k: Script, v: IndexState, have: set<Step>, need: set<Step>)
    requires Guarded(k, v, have, need)
    ensures Guarded(BackToWal(k), v, have, need)
  {
    var one := have + {PragmaSynchronous};
    var two := one + {PragmaJournal};
    var three := two + {PutOffCheckpoints};
    GuardedMore(k, v, have, one, need);
    GuardedMore(k, v, have, two, need);
    GuardedMore(k, v, have, three, need);
    GuardedAdvisory(StartValve, k, v, three, need);
  }

  lemma GuardedResolution(w: FullWorld, k: Script, v: IndexState, have: set<Step>, need: set<Step>)
    requires Guarded(k, v, have + StepsOf(REINIT) + StepsOf(RELINK), need)
    ensures Guarded(Resolution(w, k), v, have, need)
  {
    var ready := have + StepsOf(REINIT);
    GuardedLinking(k, v, ready, need);
    GuardedBackToWal(Linking(k), v, ready, need);
    GuardedAll(REINIT, if FastInit(w) && w.poolRuns then BackToWal(Linking(k)) else Linking(k), v, have, need);
  }

  lemma GuardedExtracted(w: FullWorld, valve: bool, have: set<Step>)
    requires {BeginGit, CountBefore, BeginNodeLoad, Extract, EndNodeLoad} <= have
    requires w.freshDb ==> {BeginParseLoad, EndParseLoad} <= have
    ensures Guarded(Extracted(w, valve), Verdict(w.answer), have, FullNeeds(w, valve))
  {
    var need, v := FullNeeds(w, valve), Verdict(w.answer);
    var folded := have + if valve then StepsOf([Fold]) else {};
    if Works(w.answer) {
      GuardedClosing(w.answer, folded + StepsOf(REINIT) + StepsOf(RELINK), need);
      GuardedResolution(w, Closing(w.answer), v, folded, need);
    } else {
      GuardedClosing(w.answer, folded, need);
    }
    GuardedWhen(valve, [Fold], if Works(w.answer) then Resolution(w, Closing(w.answer)) else Closing(w.answer), v, have, need);
  }

  lemma GuardedUnloading(w: FullWorld, k: Script, v: IndexState, have: set<Step>, need: set<Step>)
    requires Guarded(k, v, have + {EndNodeLoad} + (if w.freshDb then {EndParseLoad} else {}), need)
    ensures Guarded(Unloading(w, k), v, have, need)
  {
    var ended := have + if w.freshDb then StepsOf([EndParseLoad]) else {};
    assert ended + {EndNodeLoad} == have + {EndNodeLoad} + (if w.freshDb then {EndParseLoad} else {});
    GuardedWhen(w.freshDb, [EndParseLoad], Must(EndNodeLoad, k), v, have, need);
  }

  lemma GuardedLoading(w: FullWorld, valve: bool)
    ensures Guarded(Loading(w, valve), Verdict(w.answer), {BeginGit, CountBefore}, FullNeeds(w, valve))
  {
    var need, v, have := FullNeeds(w, valve), Verdict(w.answer), {BeginGit, CountBefore};
    var begun := have + {BeginNodeLoad};
    var loaded := begun + if w.freshDb then StepsOf([BeginParseLoad]) else {};
    var unloaded := loaded + {Extract} + {EndNodeLoad} + (if w.freshDb then {EndParseLoad} else {});
    GuardedExtracted(w, valve, unloaded);
    GuardedUnloading(w, Extracted(w, valve), v, loaded + {Extract}, need);
    GuardedUnloading(w, Stop(Throw), v, loaded, need);
    GuardedWhen(w.freshDb, [BeginParseLoad], Extraction(w, valve), v, begun, need);
    GuardedAdvisory(ClearVocab, Must(BeginNodeLoad, When(w.freshDb, [BeginParseLoad], Extraction(w, valve))), v, have, need);
  }

  /** A full reconcile that finds the marker of an interrupted run. */
  predicate Interrupted(w: SyncWorld, state: Option<IndexState>) { w.fullReconcile && state == Some(Indexing) }

  lemma SyncGuarded(w: SyncWorld, valve: bool, state: Option<IndexState>, heal: bool, v: IndexState)
    requires v == Complete || !Interrupted(w, state)
    ensures Guarded(Syncing(w, valve, state, heal), v, {}, SyncNeeds(w, valve))
  {
    hide SyncClosing, Healing, Sweeping, Refreshing, When, MustAll, Guarded, RefreshNeeds, SweepNeeds;
    var need := SyncNeeds(w, valve);
    var h1 := StepsOf([BeginGit, SyncFiles]);
    var h2 := h1 + if valve then StepsOf([Fold]) else {};
    var h3 := h2 + RefreshNeeds(w);
    var h4 := h3 + SweepNeeds(w);
    var closing := SyncClosing(w, state);
    SyncClosingGuarded(w, state, v, h4, need);
    HealingGuarded(w, heal, closing, v, h4, need);
    SweepingGuarded(w, Healing(w, heal, closing), v, h3, need);
    RefreshingGuarded(w, Sweeping(w, Healing(w, heal, closing)), v, h2, need);
    var refreshing := Refreshing(w, Sweeping(w, Healing(w, heal, closing)));
    GuardedWhen(valve, [Fold], refreshing, v, h1, need);
    assert {} + h1 == h1;
    GuardedAll([BeginGit, SyncFiles], When(valve, [Fold], refreshing), v, {}, need);
  }

  lemma SyncClosingGuarded(
      w: SyncWorld, state: Option<IndexState>, v: IndexState, have: set<Step>, need: set<Step>)
    requires v == Complete || !Interrupted(w, state)
    requires need <= have + {ReadState}
    ensures Guarded(SyncClosing(w, state), v, have, need)
  {
    var read := have + {ReadState};
    assert Guarded(SyncFinale(), v, read, need);
    if Interrupted(w, state) {
      GuardedAdvisory(SetState(Complete), SyncFinale(), v, read, need);
    }
  }

  lemma HealingGuarded(w: SyncWorld, heal: bool, k: Script, v: IndexState, have: set<Step>, need: set<Step>)
    requires Guarded(k, v, have, need)
    ensures Guarded(Healing(w, heal, k), v, have, need)
  {
    GuardedMore(k, v, have, have + {CountNodes}, need);
    GuardedAdvisory(BackfillVocab, k, v, have + {CountNodes}, need);
  }

  lemma SweepingGuarded(w: SyncWorld, k: Script, v: IndexState, have: set<Step>, need: set<Step>)
    requires Guarded(k, v, have + SweepNeeds(w), need)
    ensures Guarded(Sweeping(w, k), v, have, need)
  {
    var h1 := have + if w.rebinds then StepsOf([Rebind]) else {};
    var h2 := h1 + StepsOf([CountOrphans]);
    var h3 := h2 + if w.orphans then StepsOf([ResolveOrphans]) else {};
    var h4 := h3 + if w.changed || w.orphans then StepsOf([ResolveChained, ResolveDeferred]) else {};
    var h5 := h4 + if w.changed || w.removed || w.orphans then StepsOf([Maintain]) else {};
    assert h5 == have + SweepNeeds(w);
    var maintained := When(w.changed || w.removed || w.orphans, [Maintain], k);
    GuardedWhen(w.changed || w.removed || w.orphans, [Maintain], k, v, h4, need);
    GuardedWhen(w.changed || w.orphans, [ResolveChained, ResolveDeferred], maintained, v, h3, need);
    GuardedWhen(w.orphans, [ResolveOrphans], Linked(w, k), v, h2, need);
    GuardedAll([CountOrphans], When(w.orphans, [ResolveOrphans], Linked(w, k)), v, h1, need);
    GuardedWhen(w.rebinds, [Rebind], MustAll([CountOrphans], When(w.orphans, [ResolveOrphans], Linked(w, k))), v, have, need);
  }

  lemma RefreshingGuarded(w: SyncWorld, k: Script, v: IndexState, have: set<Step>, need: set<Step>)
    requires Guarded(k, v, have + RefreshNeeds(w), need)
    ensures Guarded(Refreshing(w, k), v, have, need)
  {
    if w.changed {
      var h1 := have + StepsOf([PostExtract]);
      if w.scoped {
        var h2 := h1 + StepsOf([LoadRefs, ResolveScoped, LoadRetryable]);
        assert have + RefreshNeeds(w) == h2 + if w.retryable then StepsOf([ResolveRetryable]) else {};
        GuardedWhen(w.retryable, [ResolveRetryable], k, v, h2, need);
        GuardedAll([LoadRefs, ResolveScoped, LoadRetryable], When(w.retryable, [ResolveRetryable], k), v, h1, need);
      } else {
        assert have + RefreshNeeds(w) == h1 + StepsOf([CountUnresolved, ResolveBatched]);
        GuardedAll([CountUnresolved, ResolveBatched], k, v, h1, need);
      }
      GuardedAll([PostExtract], Resolving(w, k), v, have, need);
    } else {
      assert RefreshNeeds(w) == if w.removed then StepsOf([ClearCaches]) else {};
      GuardedWhen(w.removed, [ClearCaches], k, v, have, need);
    }
  }

  /** Nothing but `fatal` ends the script by an exception past a final state, and every return has come by `x`. */
  predicate Late(k: Script, fatal: set<Step>, x: Step) { LateThrows(k, fatal) && Asks(k, x) }

  lemma LateAll(steps: seq<Step>, k: Script, fatal: set<Step>, x: Step)
    requires Late(k, fatal, x) && forall y <- steps :: !y.SetState?
    ensures Late(MustAll(steps, k), fatal, x)
  {
    LateThrowsAll(steps, k, fatal);
    AsksAll(steps, k, x);
  }

  lemma LateWhen(c: bool, steps: seq<Step>, k: Script, fatal: set<Step>, x: Step)
    requires Late(k, fatal, x) && forall y <- steps :: !y.SetState?
    ensures Late(When(c, steps, k), fatal, x)
  {
    LateAll(steps, k, fatal, x);
  }

  lemma LateClosing(r: IndexResult)
    ensures Late(Closing(r), {}, SetState(Verdict(r)))
  {
    LateWhen(Finishes(r), [FinishGit], Recording(r, Finale(r.success)), {}, SetState(Verdict(r)));
  }

  lemma LateResolution(w: FullWorld, k: Script, x: Step)
    requires Late(k, {}, x)
    ensures Late(Resolution(w, k), {}, x)
  {
    hide MustAll, BackToWal, Linking;
    LateLinking(k, x);
    LateBackToWal(Linking(k), x);
    LateAll(REINIT, if FastInit(w) && w.poolRuns then BackToWal(Linking(k)) else Linking(k), {}, x);
  }

  lemma LateLinking(k: Script, x: Step)
    requires Late(k, {}, x)
    ensures Late(Linking(k), {}, x)
  {
    hide MustAll;
    LateAll(RELINK, Call(StampVersion, Advisory(StampExtraction, k), k), {}, x);
  }

  lemma LateBackToWal(k: Script, x: Step)
    requires Late(k, {}, x)
    ensures Late(BackToWal(k), {}, x)
  {
    assert Late(Advisory(StartValve, k), {}, x);
    assert Late(Call(PutOffCheckpoints, Advisory(StartValve, k), k), {}, x);
  }

  lemma LateUnloading(w: FullWorld, k: Script, x: Step)
    requires Late(k, {}, x)
    ensures Late(Unloading(w, k), {}, x)
  {
    LateWhen(w.freshDb, [EndParseLoad], Must(EndNodeLoad, k), {}, x);
  }

  /** Past its verdict nothing ends a full run by an exception, and no full run returns without trying to record it. */
  lemma LateLoading(w: FullWorld, valve: bool)
    ensures Late(Loading(w, valve), {}, SetState(Verdict(w.answer)))
  {
    hide Closing, Resolution, Unloading, When;
    var r, x := w.answer, SetState(Verdict(w.answer));
    LateClosing(r);
    LateResolution(w, Closing(r), x);
    LateWhen(valve, [Fold], if Works(r) then Resolution(w, Closing(r)) else Closing(r), {}, x);
    LateUnloading(w, Extracted(w, valve), x);
    LateUnloading(w, Stop(Throw), x);
    LateWhen(w.freshDb, [BeginParseLoad], Extraction(w, valve), {}, x);
    assert Late(Must(BeginNodeLoad, When(w.freshDb, [BeginParseLoad], Extraction(w, valve))), {}, x);
  }

  /** The call by which a sync that returns must have come. */
  function SyncMark(w: SyncWorld, state: Option<IndexState>): Step {
    if Interrupted(w, state) then SetState(Complete) else FinishGit
  }

  lemma LateSweeping(w: SyncWorld, k: Script, x: Step)
    requires Late(k, {FinishGit}, x)
    ensures Late(Sweeping(w, k), {FinishGit}, x)
  {
    var fatal := {FinishGit};
    var maintained := When(w.changed || w.removed || w.orphans, [Maintain], k);
    LateWhen(w.changed || w.removed || w.orphans, [Maintain], k, fatal, x);
    LateWhen(w.changed || w.orphans, [ResolveChained, ResolveDeferred], maintained, fatal, x);
    LateWhen(w.orphans, [ResolveOrphans], Linked(w, k), fatal, x);
    LateAll([CountOrphans], When(w.orphans, [ResolveOrphans], Linked(w, k)), fatal, x);
    LateWhen(w.rebinds, [Rebind], MustAll([CountOrphans], When(w.orphans, [ResolveOrphans], Linked(w, k))), fatal, x);
  }

  lemma LateRefreshing(w: SyncWorld, k: Script, x: Step)
    requires Late(k, {FinishGit}, x)
    ensures Late(Refreshing(w, k), {FinishGit}, x)
  {
    var fatal := {FinishGit};
    LateWhen(w.retryable, [ResolveRetryable], k, fatal, x);
    LateAll([LoadRefs, ResolveScoped, LoadRetryable], When(w.retryable, [ResolveRetryable], k), fatal, x);
    LateAll([CountUnresolved, ResolveBatched], k, fatal, x);
    LateAll([PostExtract], Resolving(w, k), fatal, x);
    LateWhen(w.removed, [ClearCaches], k, fatal, x);
  }

  lemma LateSyncClosing(w: SyncWorld, state: Option<IndexState>)
    ensures Late(SyncClosing(w, state), {FinishGit}, SyncMark(w, state))
  {
    assert Late(SyncFinale(), {FinishGit}, FinishGit);
    if Interrupted(w, state) {
      assert Late(Advisory(SetState(Complete), SyncFinale()), {FinishGit}, SetState(Complete));
    }
  }

  lemma LateHealing(w: SyncWorld, heal: bool, k: Script, x: Step)
    requires Late(k, {FinishGit}, x)
    ensures Late(Healing(w, heal, k), {FinishGit}, x)
  {
    assert Late(Advisory(BackfillVocab, k), {FinishGit}, x);
  }

  lemma LateSyncing(w: SyncWorld, valve: bool, state: Option<IndexState>, heal: bool)
    ensures Late(Syncing(w, valve, state, heal), {FinishGit}, SyncMark(w, state))
  {
    hide SyncClosing, Healing, Refreshing, Sweeping, Late, When;
    var fatal, x := {FinishGit}, SyncMark(w, state);
    var closing := SyncClosing(w, state);
    var healing := Healing(w, heal, closing);
    LateSyncClosing(w, state);
    LateHealing(w, heal, closing, x);
    LateSweeping(w, healing, x);
    LateRefreshing(w, Sweeping(w, healing), x);
    LateWhen(valve, [Fold], Refreshing(w, Sweeping(w, healing)), fatal, x);
    LateAll([BeginGit, SyncFiles], When(valve, [Fold], Refreshing(w, Sweeping(w, healing))), fatal, x);
  }

  // ---------------------------------------------------------------- a full run

  predicate Recorded(w: FullWorld, log: Log) { Reply(SetState(Verdict(w.answer)), Proceed) in log }

  /** The first three calls proceeded: the git record, the count, and the write of the marker. */
  predicate Marked(log: Log) { |log| >= 3 && forall i :: 0 <= i < 3 ==> log[i].fate.Proceed? }

  /** The run came past the marker, written or not. */
  predicate Entered(log: Log) { |log| >= 3 && log[0].fate.Proceed? && log[1].fate.Proceed? && !log[2].fate.Kill? }

  function Marking(w: FullWorld, valve: bool): Script { Advisory(SetState(Indexing), Loading(w, valve)) }

  lemma FirstTwo(w: FullWorld, valve: bool, log: Log)
    requires Walk(FullScript(w, valve), log).Stop?
    ensures |log| >= 1 && log[0].step == BeginGit
    ensures log[0].fate.Proceed? <==> |log| >= 2
    ensures |log| >= 2 ==> log[1].step == CountBefore
    ensures if |log| >= 2 && log[1].fate.Proceed? then Walk(FullScript(w, valve), log) == Walk(Marking(w, valve), log[2..])
            else |log| <= 2 && Walk(FullScript(w, valve), log) != Stop(Proceed)
  {
    hide Loading;
    var s2 := Marking(w, valve);
    MustTwo(BeginGit, CountBefore, s2);
    Start(FullScript(w, valve), log);
    if !log[0].fate.Proceed? {
      Stopped(log[0].fate, log[1..]);
    } else {
      Start(Must(CountBefore, s2), log[1..]);
      assert log[1..][1..] == log[2..];
      if !log[1].fate.Proceed? {
        Stopped(log[1].fate, log[2..]);
      }
    }
  }

  lemma Opening(w: FullWorld, valve: bool, log: Log)
    requires Walk(FullScript(w, valve), log).Stop?
    ensures |log| >= 1 && log[0].step == BeginGit
    ensures log[0].fate.Proceed? <==> |log| >= 2
    ensures |log| >= 2 ==> log[1].step == CountBefore && (log[1].fate.Proceed? <==> |log| >= 3)
    ensures |log| >= 3 ==> log[2].step == SetState(Indexing)
    ensures Entered(log) ==> Walk(FullScript(w, valve), log) == Walk(Loading(w, valve), log[3..])
    ensures !Entered(log) ==> |log| <= 3 && Walk(FullScript(w, valve), log) != Stop(Proceed)
  {
    hide Loading, FullScript;
    FirstTwo(w, valve, log);
    if |log| >= 2 && log[1].fate.Proceed? {
      Start(Marking(w, valve), log[2..]);
      assert log[2..][1..] == log[3..];
      if log[2].fate.Kill? {
        Stopped(Kill, log[3..]);
      }
    }
  }

  lemma {:induction false} Joined(log: Log, i: nat, state: Option<IndexState>)
    requires i <= |log|
    ensures StateAfter(state, log) == StateAfter(StateAfter(state, log[..i]), log[i..])
    decreases |log|
  {
    if i > 0 {
      assert log[..i][1..] == log[1..][..i - 1] && log[1..][i - 1..] == log[i..];
      Joined(log[1..], i - 1, Written(state, log[0]));
    } else {
      assert log[0..] == log;
    }
  }

  lemma UpToMarker(log: Log, state: Option<IndexState>)
    requires 1 <= |log| <= 3 && log[0].step == BeginGit && (|log| >= 2 ==> log[1].step == CountBefore)
    requires |log| == 3 ==> log[2].step == SetState(Indexing)
    ensures StateAfter(state, log) == if |log| == 3 && log[2].fate.Proceed? then Some(Indexing) else state
  {
    var t := log[1..];
    assert StateAfter(state, log) == StateAfter(state, t);
    if |log| >= 2 {
      var u := t[1..];
      assert StateAfter(state, t) == StateAfter(state, u);
      if |log| == 3 {
        assert u[1..] == [];
        assert StateAfter(state, u) == StateAfter(Written(state, u[0]), []);
      }
    }
  }

  /**
   * The state after a full run: its verdict if that was recorded; else the
   * marker exactly if the first three calls proceeded; else what it was.
   */
  lemma FullStateExact(before: Db, after: Db, w: FullWorld, out: Outcome, log: Log, drain: Option<Fate>)
    requires FullRun(before, after, w, out, log, drain) && w.lockFree
    ensures after.indexState ==
      if Recorded(w, log) then Some(Verdict(w.answer)) else if Marked(log) then Some(Indexing) else before.indexState
  {
    hide FullScript, Loading, Walk, Guarded, FullNeeds, StateAfter;
    var valve := HasValve(before, w);
    Opening(w, valve, log);
    if Entered(log) {
      Joined(log, 3, before.indexState);
      UpToMarker(log[..3], before.indexState);
      GuardedLoading(w, valve);
      GuardedRun(Loading(w, valve), Verdict(w.answer), {BeginGit, CountBefore}, FullNeeds(w, valve), log[3..],
                 StateAfter(before.indexState, log[..3]));
      assert log == log[..3] + log[3..];
    } else {
      UpToMarker(log, before.indexState);
    }
  }

  /**
   * A full run that recorded no verdict, or that threw for another reason than
   * its drain, leaves the index marked exactly if the first three calls
   * proceeded, or it was marked already.
   */
  lemma AbortedStaysIndexing(
      before: Db, after: Db, w: FullWorld, out: Outcome, log: Log, drain: Option<Fate>, oracle: nat -> Fate, base: nat)
    requires FullRun(before, after, w, out, log, drain) && w.lockFree && Answers(log, oracle, base)
    requires !Recorded(w, log) || (out.Thrown? && drain != Some(Throw))
    ensures after.indexState == Some(Indexing) <==>
              (oracle(base) == oracle(base + 1) == oracle(base + 2) == Proceed) || before.indexState == Some(Indexing)
  {
    hide FullScript, Walk, StateAfter, Verdict, Recorded;
    VerdictEndsExceptions(before, after, w, out, log, drain);
    FullStateExact(before, after, w, out, log, drain);
    Opening(w, HasValve(before, w), log);
    assert log[0].fate == oracle(base + 0);
    if |log| >= 2 {
      assert log[1].fate == oracle(base + 1);
    }
    if |log| >= 3 {
      assert log[2].fate == oracle(base + 2);
    }
  }

  /**
   * Once its verdict is recorded a full run throws exactly if the drain of its
   * valve does, and none returns without having tried to record it.
   */
  lemma VerdictEndsExceptions(before: Db, after: Db, w: FullWorld, out: Outcome, log: Log, drain: Option<Fate>)
    requires FullRun(before, after, w, out, log, drain) && w.lockFree
    ensures Recorded(w, log) ==> (out.Thrown? <==> drain == Some(Throw))
    ensures out.Returned? ==> Recorded(w, log) || Reply(SetState(Verdict(w.answer)), Throw) in log
  {
    hide FullScript, Loading, Walk, LateThrows, Asks;
    var valve, x := HasValve(before, w), SetState(Verdict(w.answer));
    Opening(w, valve, log);
    LateLoading(w, valve);
    if Entered(log) {
      var rest := log[3..];
      assert log == log[..3] + rest;
      if Recorded(w, log) {
        assert Reply(x, Proceed) in rest;
        assert Finals(rest);
        LateThrowsRun(Loading(w, valve), {}, rest);
      }
      if out.Returned? {
        AsksRun(Loading(w, valve), x, rest);
        assert Reply(x, Proceed) in rest ==> Reply(x, Proceed) in log;
      }
    }
  }

  /**
   * Whatever state a full run writes after its marker is the verdict on what
   * extraction yielded, and every call it owes by then has proceeded before.
   */
  lemma VerdictIsEarned(
      before: Db, after: Db, w: FullWorld, out: Outcome, log: Log, drain: Option<Fate>, i: nat)
    requires FullRun(before, after, w, out, log, drain) && i < |log| && log[i].step.SetState? && log[i].step.value != Indexing
    ensures log[i].step.value == Verdict(w.answer)
    ensures Earned(FullNeeds(w, HasValve(before, w)), log[..i])
  {
    hide FullScript, Loading, Walk, Guarded, FullNeeds, StateAfter;
    var valve := HasValve(before, w);
    var need, have := FullNeeds(w, valve), {BeginGit, CountBefore};
    Opening(w, valve, log);
    var rest := log[3..];
    GuardedLoading(w, valve);
    GuardedRun(Loading(w, valve), Verdict(w.answer), have, need, rest, None);
    assert i >= 3 && rest[i - 3] == log[i];
    forall x | x in need ensures Reply(x, Proceed) in log[..i] {
      if x in have {
        assert log[..i][0] == log[0] == Reply(BeginGit, Proceed) && log[..i][1] == log[1] == Reply(CountBefore, Proceed);
      } else {
        assert x in need - have;
        assert log[..i] == log[..3] + rest[..i - 3];
      }
    }
  }

  /**
   * Exactly when a full run leaves the index complete: it recorded that of an
   * extraction that accounted for every discovered file, and then has made
   * every call it owes; or the index was complete and the marker never written.
   */
  lemma CompleteMeansAccounted(before: Db, after: Db, w: FullWorld, out: Outcome, log: Log, drain: Option<Fate>)
    requires FullRun(before, after, w, out, log, drain) && w.lockFree
    ensures after.indexState == Some(Complete) <==>
              if Recorded(w, log) then Accounted(w.answer) else before.indexState == Some(Complete) && !Marked(log)
    ensures Recorded(w, log) ==> Earned(FullNeeds(w, HasValve(before, w)), log)
  {
    hide FullRun, FullNeeds;
    FullStateExact(before, after, w, out, log, drain);
    if Recorded(w, log) {
      var i :| 0 <= i < |log| && log[i] == Reply(SetState(Verdict(w.answer)), Proceed);
      VerdictIsEarned(before, after, w, out, log, drain, i);
    }
  }

  lemma NoneFails(log: Log, drain: Option<Fate>, oracle: nat -> Fate, base: nat)
    requires NoFaults(oracle) && Answers(log, oracle, base) && DrainAnswers(log, drain, oracle, base)
    ensures Smooth(log) && (drain.Some? ==> drain.value.Proceed?)
  {
    forall r | r in log ensures r.fate.Proceed? {
      var i :| 0 <= i < |log| && log[i] == r;
      assert r.fate == oracle(base + i);
    }
  }

  /** Where no call fails a full run returns with its verdict recorded. */
  lemma FaultFreeFull(
      before: Db, after: Db, w: FullWorld, out: Outcome, log: Log, drain: Option<Fate>, oracle: nat -> Fate, base: nat)
    requires FullRun(before, after, w, out, log, drain) && w.lockFree
    requires NoFaults(oracle) && Answers(log, oracle, base) && DrainAnswers(log, drain, oracle, base)
    ensures out.Returned? && after.indexState == Some(Verdict(w.answer))
    ensures Restored(before, after, FastInit(w))
  {
    NoneFails(log, drain, oracle, base);
    var valve := HasValve(before, w);
    SmoothRun(FullScript(w, valve), log);
    SmoothFull(w, valve);
    VerdictEndsExceptions(before, after, w, out, log, drain);
    FullStateExact(before, after, w, out, log, drain);
  }

  lemma SmoothResolution(w: FullWorld, k: Script)
    ensures SmoothEnd(Resolution(w, k)) == SmoothEnd(k)
  {
    var linking := Linking(k);
    SmoothAll(RELINK, Call(StampVersion, Advisory(StampExtraction, k), k));
    SmoothAll(REINIT, if FastInit(w) && w.poolRuns then BackToWal(linking) else linking);
    assert SmoothEnd(Call(PutOffCheckpoints, Advisory(StartValve, linking), linking)) == SmoothEnd(linking);
  }

  lemma SmoothClosing(r: IndexResult)
    ensures SmoothEnd(Closing(r)) == Stop(Proceed)
  {
    assert SmoothEnd(Noting(r, Finale(r.success))) == SmoothEnd(Finale(r.success));
    SmoothWhen(Finishes(r), [FinishGit], Recording(r, Finale(r.success)));
  }

  lemma SmoothFull(w: FullWorld, valve: bool)
    ensures SmoothEnd(FullScript(w, valve)) == Stop(Proceed)
  {
    hide Closing, Resolution, When, MustAll;
    var closing := Closing(w.answer);
    SmoothClosing(w.answer);
    SmoothResolution(w, closing);
    SmoothWhen(valve, [Fold], if Works(w.answer) then Resolution(w, closing) else closing);
    SmoothWhen(w.freshDb, [EndParseLoad], Must(EndNodeLoad, Extracted(w, valve)));
    SmoothWhen(w.freshDb, [BeginParseLoad], Extraction(w, valve));
    assert SmoothEnd(Loading(w, valve)) == SmoothEnd(Must(BeginNodeLoad, When(w.freshDb, [BeginParseLoad], Extraction(w, valve))));
    SmoothAll([BeginGit, CountBefore], Advisory(SetState(Indexing), Loading(w, valve)));
  }

  /** An old `complete` survives a full run whose first call throws. */
  method OldCompleteSurvives(w: FullWorld) returns (out: Outcome, after: Db)
    requires w.lockFree
    ensures out.Thrown? && after.indexState == Some(Complete)
  {
    var db := Db(Some(Complete), 1000, Wal, Normal, false);
    var engine := new Engine(db, k => if k == 0 then Throw else Proceed);
    out := engine.IndexAll(w);
    after := engine.State();
    Opening(w, HasValve(db, w), engine.log);
    assert engine.log[0].fate == engine.oracle(0 + 0);
    Stopped(Throw, engine.log[1..]);
    FullStateExact(db, after, w, out, engine.log, engine.drain);
  }

  // ---------------------------------------------------------------- a sync

  predicate Closed(log: Log) { Reply(SetState(Complete), Proceed) in log }

  /**
   * A sync writes no state but `complete`, only as a full reconcile over the
   * marker of an interrupted run, and only past every repair it owes.
   */
  lemma SyncClosesRepaired(before: Db, after: Db, w: SyncWorld, out: Outcome, log: Log, drain: Option<Fate>)
    requires SyncRun(before, after, w, out, log, drain) && w.lockFree
    ensures after.indexState == if Closed(log) then Some(Complete) else before.indexState
    ensures forall i :: 0 <= i < |log| && log[i].step.SetState? ==>
              && Interrupted(w, before.indexState)
              && log[i].step.value == Complete
              && Earned(SyncNeeds(w, SyncHasValve(before, w)), log[..i])
  {
    hide Syncing, SyncNeeds, Guarded, StateAfter, Walk, SyncScript;
    var valve, state := SyncHasValve(before, w), before.indexState;
    SyncScriptGuarded(w, valve, state, Complete);
    GuardedRun(SyncScript(w, valve, state), Complete, {}, SyncNeeds(w, valve), log, state);
    if !Interrupted(w, state) {
      SyncScriptGuarded(w, valve, state, Partial);
      GuardedRun(SyncScript(w, valve, state), Partial, {}, SyncNeeds(w, valve), log, state);
    }
    assert SyncNeeds(w, valve) - {} == SyncNeeds(w, valve);
  }

  lemma SyncScriptGuarded(w: SyncWorld, valve: bool, state: Option<IndexState>, v: IndexState)
    requires v == Complete || !Interrupted(w, state)
    ensures Guarded(SyncScript(w, valve, state), v, {}, SyncNeeds(w, valve))
  {
    hide Syncing, SyncNeeds;
    SyncGuarded(w, valve, state, w.vocabEmpty, v);
    SyncGuarded(w, valve, state, false, v);
    GuardedMore(Syncing(w, valve, state, w.vocabEmpty), v, {}, {} + {ProbeVocab}, SyncNeeds(w, valve));
  }

  /**
   * A sync that closed the index throws exactly if the drain of its valve does
   * or, with no kill in the drain, the git record did; one that returns over an
   * interrupted index has tried to close it.
   */
  lemma ClosedSyncThrows(before: Db, after: Db, w: SyncWorld, out: Outcome, log: Log, drain: Option<Fate>)
    requires SyncRun(before, after, w, out, log, drain) && w.lockFree
    ensures Closed(log) ==> (out.Thrown? <==>
              drain == Some(Throw) || (drain != Some(Kill) && log[|log| - 1] == Reply(FinishGit, Throw)))
    ensures out.Returned? && Interrupted(w, before.indexState) ==> Closed(log) || Reply(SetState(Complete), Throw) in log
  {
    hide Syncing, Walk;
    var valve, state := SyncHasValve(before, w), before.indexState;
    var script, x := SyncScript(w, valve, state), SyncMark(w, state);
    LateSyncing(w, valve, state, w.vocabEmpty);
    LateSyncing(w, valve, state, false);
    assert Late(script, {FinishGit}, x);
    if Closed(log) {
      assert Finals(log);
      LateThrowsRun(script, {FinishGit}, log);
    }
    if out.Returned? {
      AsksRun(script, x, log);
    }
  }

  /** Where no call fails a sync returns, and a full reconcile has closed an interrupted index. */
  lemma FaultFreeSync(
      before: Db, after: Db, w: SyncWorld, out: Outcome, log: Log, drain: Option<Fate>, oracle: nat -> Fate, base: nat)
    requires SyncRun(before, after, w, out, log, drain) && w.lockFree
    requires NoFaults(oracle) && Answers(log, oracle, base) && DrainAnswers(log, drain, oracle, base)
    ensures out.Returned? && Restored(before, after, false)
    ensures after.indexState == if Interrupted(w, before.indexState) then Some(Complete) else before.indexState
  {
    NoneFails(log, drain, oracle, base);
    var valve, state := SyncHasValve(before, w), before.indexState;
    SmoothRun(SyncScript(w, valve, state), log);
    SmoothSync(w, valve, state, w.vocabEmpty);
    ClosedSyncThrows(before, after, w, out, log, drain);
    SyncClosesRepaired(before, after, w, out, log, drain);
  }

  lemma SmoothWhen(c: bool, steps: seq<Step>, k: Script)
    ensures SmoothEnd(When(c, steps, k)) == SmoothEnd(k)
  {
    SmoothAll(steps, k);
  }

  lemma SmoothSweeping(w: SyncWorld, k: Script)
    ensures SmoothEnd(Sweeping(w, k)) == SmoothEnd(k)
  {
    var maintained := When(w.changed || w.removed || w.orphans, [Maintain], k);
    SmoothWhen(w.changed || w.removed || w.orphans, [Maintain], k);
    SmoothWhen(w.changed || w.orphans, [ResolveChained, ResolveDeferred], maintained);
    SmoothWhen(w.orphans, [ResolveOrphans], Linked(w, k));
    SmoothAll([CountOrphans], When(w.orphans, [ResolveOrphans], Linked(w, k)));
    SmoothWhen(w.rebinds, [Rebind], MustAll([CountOrphans], When(w.orphans, [ResolveOrphans], Linked(w, k))));
  }

  lemma SmoothRefreshing(w: SyncWorld, k: Script)
    ensures SmoothEnd(Refreshing(w, k)) == SmoothEnd(k)
  {
    SmoothWhen(w.retryable, [ResolveRetryable], k);
    SmoothAll([LoadRefs, ResolveScoped, LoadRetryable], When(w.retryable, [ResolveRetryable], k));
    SmoothAll([CountUnresolved, ResolveBatched], k);
    SmoothAll([PostExtract], Resolving(w, k));
    SmoothWhen(w.removed, [ClearCaches], k);
  }

  lemma SmoothSync(w: SyncWorld, valve: bool, state: Option<IndexState>, heal: bool)
    ensures SmoothEnd(Syncing(w, valve, state, heal)) == Stop(Proceed)
  {
    hide Refreshing, Sweeping, When, MustAll;
    var closing := SyncClosing(w, state);
    assert SmoothEnd(SyncFinale()) == Stop(Proceed);
    assert SmoothEnd(closing) == Stop(Proceed);
    var k := Healing(w, heal, closing);
    SmoothSweeping(w, k);
    SmoothRefreshing(w, Sweeping(w, k));
    SmoothWhen(valve, [Fold], Refreshing(w, Sweeping(w, k)));
    SmoothAll([BeginGit, SyncFiles], When(valve, [Fold], Refreshing(w, Sweeping(w, k))));
  }

  /** A sync can close the index and still throw: here, with nothing to repair, in its seventh call. */
  method SyncClosesThenThrows() returns (out: Outcome, after: Db)
    ensures out.Thrown? && after.indexState == Some(Complete)
  {
    var db := Db(Some(Indexing), 1000, Wal, Normal, false);
    var w := SyncWorld(true, true, true, false, false, false, false, false, false, false, false);
    var engine := new Engine(db, k => if k == 6 then Throw else Proceed);
    out := engine.Sync(w);
    after := engine.State();
    QuietSync(w, engine.log, engine.oracle);
    SyncClosesRepaired(db, after, w, out, engine.log, engine.drain);
  }

  lemma MustOne(x: Step, k: Script)
    ensures MustAll([x], k) == Must(x, k)
  {
    assert [x][1..] == [];
  }

  lemma MustTwo(x: Step, y: Step, k: Script)
    ensures MustAll([x, y], k) == Must(x, Must(y, k))
  {
    assert [x, y][1..] == [y];
    MustOne(y, k);
  }

  lemma ThenOn(s: Script, log: Log, oracle: nat -> Fate, i: nat)
    requires i <= |log| && s.Call? && Walk(s, log[i..]).Stop? && Answers(log, oracle, 0)
    ensures i < |log| && log[i] == Reply(s.step, oracle(i))
    ensures Walk(s, log[i..]) == Walk(Next(s, Reply(s.step, oracle(i))), log[i + 1..])
  {
    Start(s, log[i..]);
    assert log[i..][1..] == log[i + 1..] && log[i].fate == oracle(0 + i);
  }

  lemma QuietScript(w: SyncWorld, k: Script)
    requires w == SyncWorld(true, true, true, false, false, false, false, false, false, false, false)
    requires k == SyncClosing(w, Some(Indexing))
    ensures SyncScript(w, false, Some(Indexing)).Call?
    ensures SyncScript(w, false, Some(Indexing)).done == Must(BeginGit, Must(SyncFiles, Must(CountOrphans, k)))
  {
    MustOne(CountOrphans, k);
    MustTwo(BeginGit, SyncFiles, Must(CountOrphans, k));
  }

  lemma QuietSync(w: SyncWorld, log: Log, oracle: nat -> Fate)
    requires w == SyncWorld(true, true, true, false, false, false, false, false, false, false, false)
    requires Walk(SyncScript(w, false, Some(Indexing)), log).Stop? && Answers(log, oracle, 0)
    requires forall k: nat :: oracle(k) == if k == 6 then Throw else Proceed
    ensures Walk(SyncScript(w, false, Some(Indexing)), log) == Stop(Throw) && Closed(log)
  {
    hide Walk, Answers;
    var s6 := SyncFinale();
    var s5 := Advisory(SetState(Complete), s6);
    var s4 := Must(ReadState, s5);
    var s3 := Must(CountOrphans, s4);
    var s2 := Must(SyncFiles, s3);
    QuietScript(w, s4);
    assert log[0..] == log;
    ThenOn(SyncScript(w, false, Some(Indexing)), log, oracle, 0);
    hide SyncScript;
    ThenOn(Must(BeginGit, s2), log, oracle, 1);
    ThenOn(s2, log, oracle, 2);
    ThenOn(s3, log, oracle, 3);
    ThenOn(s4, log, oracle, 4);
    ThenOn(s5, log, oracle, 5);
    assert log[5] == Reply(SetState(Complete), Proceed);
    ThenOn(s6, log, oracle, 6);
    Stopped(Throw, log[7..]);
  }

  // ---------------------------------------------------------------- any sequence of runs

  datatype RunOf = Full(fw: FullWorld) | Incremental(sw: SyncWorld)

  /** A run, the replies it and its drain had, how it ended, and the database it left. */
  datatype Event = Event(run: RunOf, log: Log, drain: Option<Fate>, out: Outcome, done: Db)

  /** After a kill the next process opens the database anew and takes over the stale lock. */
  function Reopened(db: Db): Db { db.(interval := 1000, locked := false) }

  predicate Follows(before: Db, e: Event, after: Db) {
    && (match e.run
        case Full(w) => FullRun(before, e.done, w, e.out, e.log, e.drain)
        case Incremental(w) => SyncRun(before, e.done, w, e.out, e.log, e.drain))
    && after == if e.out.Killed? then Reopened(e.done) else e.done
  }

  ghost predicate Chain(dbs: seq<Db>, events: seq<Event>) {
    && |dbs| == |events| + 1
    && forall k :: 0 <= k < |events| ==> Follows(dbs[k], events[k], dbs[k + 1])
  }

  lemma ShorterChain(dbs: seq<Db>, events: seq<Event>)
    requires Chain(dbs, events) && events != []
    ensures Chain(dbs[..|events|], events[..|events| - 1])
  {
    hide Follows;
    var n := |events| - 1;
    forall k | 0 <= k < n ensures Follows(dbs[..n + 1][k], events[..n][k], dbs[..n + 1][k + 1]) {
      assert Follows(dbs[k], events[k], dbs[k + 1]);
    }
  }

  /**
   * The event that records a final state, past everything its run owes: a full
   * run's verdict on what extraction yielded, or the close of a full reconcile
   * that found the index interrupted and repaired it.
   */
  predicate Closes(before: Db, e: Event, v: IndexState) {
    match e.run
    case Full(w) =>
      && w.lockFree && Recorded(w, e.log)
      && v == Verdict(w.answer)
      && Earned(FullNeeds(w, HasValve(before, w)), e.log)
    case Incremental(w) =>
      && w.lockFree && Closed(e.log)
      && v == Complete && Interrupted(w, before.indexState)
      && Earned(SyncNeeds(w, SyncHasValve(before, w)), e.log)
  }

  /** A run leaves the state alone, marks it, or records a final one. */
  lemma OneRun(before: Db, e: Event, after: Db)
    requires Follows(before, e, after)
    ensures after.indexState == before.indexState || after.indexState == Some(Indexing)
         || (after.indexState.Some? && Closes(before, e, after.indexState.value))
  {
    hide FullNeeds, SyncNeeds, RunTo, Verdict;
    match e.run
    case Full(w) =>
      if w.lockFree {
        FullStateExact(before, e.done, w, e.out, e.log, e.drain);
        CompleteMeansAccounted(before, e.done, w, e.out, e.log, e.drain);
      }
    case Incremental(w) =>
      if w.lockFree {
        SyncClosesRepaired(before, e.done, w, e.out, e.log, e.drain);
        if Closed(e.log) {
          var i :| 0 <= i < |e.log| && e.log[i] == Reply(SetState(Complete), Proceed);
          assert Earned(SyncNeeds(w, SyncHasValve(before, w)), e.log[..i]);
        }
      }
  }

  /** An interrupted index stays marked until some run records a final state. */
  lemma {:induction false} MarkerSticks(dbs: seq<Db>, events: seq<Event>)
    requires Chain(dbs, events) && dbs[0].indexState == Some(Indexing)
    ensures dbs[|events|].indexState == Some(Indexing)
         || exists k, v :: 0 <= k < |events| && Closes(dbs[k], events[k], v)
    decreases |events|
  {
    hide Closes, Follows;
    if events != [] {
      var n := |events| - 1;
      ShorterChain(dbs, events);
      MarkerSticks(dbs[..n + 1], events[..n]);
      var d, ev := dbs[..n + 1], events[..n];
      if k, v :| 0 <= k < |ev| && Closes(d[k], ev[k], v) {
        assert Closes(dbs[k], events[k], v);
      } else {
        assert Follows(dbs[n], events[n], dbs[n + 1]);
        OneRun(dbs[n], events[n], dbs[n + 1]);
      }
    }
  }

  /**
   * An index that became complete was made so by a full run that made every
   * call it owes and accounted for every discovered file, or by a full
   * reconcile that found it interrupted and repaired it; whatever else ran,
   * broke off or was killed around it.
   */
  lemma {:induction false} CompletionHasACause(dbs: seq<Db>, events: seq<Event>)
    requires Chain(dbs, events) && dbs[0].indexState != Some(Complete) && dbs[|events|].indexState == Some(Complete)
    ensures exists k :: 0 <= k < |events| && Closes(dbs[k], events[k], Complete)
                     && (events[k].run.Full? ==> Accounted(events[k].run.fw.answer))
    decreases |events|
  {
    hide Follows;
    var n := |events| - 1;
    ShorterChain(dbs, events);
    if dbs[n].indexState == Some(Complete) {
      CompletionHasACause(dbs[..n + 1], events[..n]);
      var d, ev := dbs[..n + 1], events[..n];
      var k :| 0 <= k < |ev| && Closes(d[k], ev[k], Complete) && (ev[k].run.Full? ==> Accounted(ev[k].run.fw.answer));
      assert Closes(dbs[k], events[k], Complete);
    } else {
      assert Follows(dbs[n], events[n], dbs[n + 1]);
      OneRun(dbs[n], events[n], dbs[n + 1]);
      assert Closes(dbs[n], events[n], Complete);
    }
  }

  predicate Durable(db: Db) { db.journal == Wal && db.synchronous == Normal && !db.locked }

  /**
   * A run that is not killed leaves a durable connection, its interval, and a
   * free lock exactly if its drain did not throw; else the lock stays taken and
   * checkpoints stay put off.
   */
  lemma ExitExact(before: Db, e: Event, after: Db)
    requires Follows(before, e, after) && !e.out.Killed? && Durable(before)
    ensures e.drain != Some(Throw) ==> Durable(after) && after.interval == before.interval
    ensures e.drain == Some(Throw) ==> e.out.Thrown? && after.locked && after.interval == 0
  {
    hide FullScript, SyncScript, Walk, StateAfter, Armed;
  }

  /** A drain can throw: here after the first call did, which leaves the lock taken and checkpoints put off. */
  method DrainStrands(w: FullWorld) returns (out: Outcome, after: Db)
    requires w.lockFree && !w.freshDb && !w.noWalDefer
    ensures out.Thrown? && after.locked && after.interval == 0
  {
    var db := Db(Some(Complete), 1000, Wal, Normal, false);
    var engine := new Engine(db, k => Throw);
    out := engine.IndexAll(w);
    after := engine.State();
    Opening(w, HasValve(db, w), engine.log);
    assert engine.log[0].fate == engine.oracle(0 + 0);
    Stopped(Throw, engine.log[1..]);
    assert engine.drain == Some(Throw);
    ExitExact(db, Event(Full(w), engine.log, engine.drain, out, after), after);
  }

  /**
   * Runs that return or throw, however many, each leave a durable connection,
   * its interval, and a free lock exactly if none of their drains threw.
   */
  lemma {:induction false} EveryExitRestores(dbs: seq<Db>, events: seq<Event>)
    requires Chain(dbs, events) && Durable(dbs[0])
    requires forall k :: 0 <= k < |events| ==> !events[k].out.Killed?
    ensures (forall k :: 0 <= k <= |events| ==> Durable(dbs[k]) && dbs[k].interval == dbs[0].interval)
       <==> (forall k :: 0 <= k < |events| ==> events[k].drain != Some(Throw))
    decreases |events|
  {
    hide Follows;
    if events != [] {
      var n := |events| - 1;
      ShorterChain(dbs, events);
      var d, ev := dbs[..n + 1], events[..n];
      EveryExitRestores(d, ev);
      assert Follows(dbs[n], events[n], dbs[n + 1]);
      if forall k :: 0 <= k < |ev| ==> ev[k].drain != Some(Throw) {
        assert d[n] == dbs[n];
        ExitExact(dbs[n], events[n], dbs[n + 1]);
      }
    }
  }
}
