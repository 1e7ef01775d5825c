/**
 The results that stage calls store for their replays, and what later calls leave
 of them.
 */
module StageResults {
  import opened Common
  import opened Paths
  import opened Trees
  import opened Restore
  import opened ChangeSets
  import opened Commits
  import opened ChangeSetRuns
  import opened ChangeSetCuts

  /** The results in the log tell ordinal and revision of their own call. */
  ghost predicate Numbered(cs: ChangeSet) {
    LogOk(cs)
    && forall i :: 0 <= i < |cs.operations| ==>
         cs.operations[i].result.ordinal == i + 1 && cs.operations[i].result.revision == i + 2
  }

  /** What the first n recorded edits make of the captured tree, as the result of the last of them tells it. */
  ghost predicate Told(t: Tools, cs: ChangeSet, n: nat)
    requires 1 <= n <= |cs.operations|
  {
    var d := Fold(t, Materialize(cs.before), cs.operations[..n]);
    var r := cs.operations[n - 1].result;
    d.Some? && r.rows == ManifestOf(cs.before, Rebuild(cs.before, d.value)) && r.size == t.size(d.value)
  }

  ghost predicate AllTold(t: Tools, cs: ChangeSet) {
    forall n :: 1 <= n <= |cs.operations| ==> Told(t, cs, n)
  }

  /** Only a recorded stage call touches the log, and it adds one operation. */
  lemma EffectOperations(t: Tools, c: Config, cs: ChangeSet, w: Option<Worktree>, step: Step)
    requires !step.Begin? && !step.OutsideEdit?
    ensures var next := Effect(t, c, cs, w, step).0;
            || next.operations == cs.operations
            || (step.Stage? && StageSpec(t, c, cs, w.Some?, step.now, step.opId, step.payload).1.Staged?)
  {
    hide EditSpec, CommitSpec, ReconcileSpec, Objection, MaxOrdinal;
    match step {
      case Commit(_, digest, expectedTree, env) => CommitKeepsLog(cs, w, digest, expectedTree, env);
      case Reconcile(_, denied, temps) => ReconcileKeepsLog(cs, w, denied, temps);
      case Stage(_, now, opId, payload) => FailedStageChangesNothing(t, c, cs, w.Some?, now, opId, payload);
      case Validate(_, _, _, _, _) =>
      case Rollback(_) =>
      case ExpireOne(_, _) =>
      case ReconcileCut(_, _, _, _) =>
    }
  }

  lemma StageKeepsNumbers(t: Tools, c: Config, cs: ChangeSet, present: bool, now: int, opId: string, payload: Payload)
    requires Numbered(cs)
    ensures Numbered(StageSpec(t, c, cs, present, now, opId, payload).0)
  {
    hide ManifestOf, Rebuild;
    MaxOrdinalIsCount(cs.operations);
  }

  /** The log of a set after one step: the same, or one operation longer, and still numbered. */
  lemma EffectKeepsNumbers(t: Tools, c: Config, id: string, cs: ChangeSet, w: Option<Worktree>, step: Step)
    requires !step.Begin? && !step.OutsideEdit? && step.id == id && Numbered(cs) && Agreed(id, cs)
    ensures Numbered(Effect(t, c, cs, w, step).0)
  {
    hide StageSpec, Agreed;
    EffectKeepsAgreed(t, c, id, cs, w, step);
    AgreedLog(id, Effect(t, c, cs, w, step).0);
    EffectOperations(t, c, cs, w, step);
    if step.Stage? { StageKeepsNumbers(t, c, cs, w.Some?, step.now, step.opId, step.payload); }
  }

  lemma AgreedLog(id: string, cs: ChangeSet)
    requires Agreed(id, cs)
    ensures LogOk(cs)
  {
  }

  ghost predicate AllNumbered(sets: map<string, ChangeSet>) {
    AllAgreed(sets) && forall id :: id in sets ==> Numbered(sets[id])
  }

  lemma NextKeepsNumbers(t: Tools, c: Config, st: Store, s: CutStep)
    requires AllNumbered(st.sets)
    ensures AllNumbered(NextCut(t, c, st, s).sets)
  {
    hide Effect, AllAgreed;
    NextKeepsAgreed(t, c, st, s);
    if s.Whole? && !s.step.Begin? && !s.step.OutsideEdit? && s.step.id in st.sets {
      AgreedAt(st.sets, s.step.id);
      EffectKeepsNumbers(t, c, s.step.id, st.sets[s.step.id], Find(st.worktrees, st.sets[s.step.id].workspace), s.step);
    }
  }

  lemma AgreedAt(sets: map<string, ChangeSet>, id: string)
    requires AllAgreed(sets) && id in sets
    ensures Agreed(id, sets[id])
  {
  }

  lemma {:induction false} RunKeepsNumbers(t: Tools, c: Config, st: Store, steps: seq<CutStep>)
    requires AllNumbered(st.sets)
    ensures AllNumbered(RunCut(t, c, st, steps).sets)
    decreases |steps|
  {
    hide AllNumbered, NextCut;
    if steps != [] {
      NextKeepsNumbers(t, c, st, steps[0]);
      RunKeepsNumbers(t, c, NextCut(t, c, st, steps[0]), steps[1..]);
    }
  }

  lemma StageKeepsTold(t: Tools, c: Config, id: string, cs: ChangeSet, present: bool, now: int, opId: string,
                       payload: Payload)
    requires Inv(t, id, cs) && AllTold(t, cs)
    requires StageSpec(t, c, cs, present, now, opId, payload).1.Staged?
    ensures AllTold(t, StageSpec(t, c, cs, present, now, opId, payload).0)
  {
    hide Inv, ManifestOf, Rebuild, MaxOrdinal, LogOk;
    StagesItsMeaning(t, id, cs);
    var next := StageSpec(t, c, cs, present, now, opId, payload).0;
    assert next.operations[..|next.operations| - 1] == cs.operations;
    assert next.operations[..|next.operations|] == next.operations;
    forall n | 1 <= n <= |next.operations| ensures Told(t, next, n) {
      if n <= |cs.operations| {
        assert Told(t, cs, n) && next.operations[..n] == cs.operations[..n];
      }
    }
  }

  lemma SameOperationsTold(t: Tools, cs: ChangeSet, next: ChangeSet)
    requires AllTold(t, cs) && next.operations == cs.operations && next.before == cs.before
    ensures AllTold(t, next)
  {
    forall n | 1 <= n <= |next.operations| ensures Told(t, next, n) {
      assert Told(t, cs, n);
    }
  }

  lemma NextKeepsTold(t: Tools, c: Config, st: Store, s: CutStep, id: string)
    requires id in st.sets ==> Inv(t, id, st.sets[id]) && AllTold(t, st.sets[id])
    requires s.StageCut? ==> s.id != id
    ensures id in NextCut(t, c, st, s).sets ==> AllTold(t, NextCut(t, c, st, s).sets[id])
  {
    hide Effect, Inv, StageSpec, Told;
    if s.Whole? && !s.step.Begin? && !s.step.OutsideEdit? && s.step.id in st.sets && s.step.id == id {
      var cs, w := st.sets[id], Find(st.worktrees, st.sets[id].workspace);
      EffectOperations(t, c, cs, w, s.step);
      EffectKeepsClosed(t, c, cs, w, s.step);
      if Effect(t, c, cs, w, s.step).0.operations == cs.operations {
        SameOperationsTold(t, cs, Effect(t, c, cs, w, s.step).0);
      } else {
        StageKeepsTold(t, c, id, cs, w.Some?, s.step.now, s.step.opId, s.step.payload);
        StageEffect(t, c, cs, w, s.step);
      }
    }
  }

  lemma StageEffect(t: Tools, c: Config, cs: ChangeSet, w: Option<Worktree>, step: Step)
    requires step.Stage?
    ensures Effect(t, c, cs, w, step).0 == StageSpec(t, c, cs, w.Some?, step.now, step.opId, step.payload).0
  {
    hide StageSpec;
  }

  lemma {:induction false} RunKeepsTold(t: Tools, c: Config, st: Store, steps: seq<CutStep>, id: string)
    requires (id in st.sets ==> Inv(t, id, st.sets[id]) && AllTold(t, st.sets[id])) && NeverCut(steps, id)
    ensures id in RunCut(t, c, st, steps).sets ==> AllTold(t, RunCut(t, c, st, steps).sets[id])
    decreases |steps|
  {
    hide Inv, NextCut, AllTold;
    if steps != [] {
      NextKeepsOne(t, c, st, steps[0], id);
      NextKeepsTold(t, c, st, steps[0], id);
      RunKeepsTold(t, c, NextCut(t, c, st, steps[0]), steps[1..], id);
    }
  }

  /**
   Stored results are true: in every reachable store the result of operation i carries
   ordinal i and revision i + 1, and in a set none of whose own stage calls died also
   the manifest and the size of the first i edits folded over the captured tree.  So
   this is what a replay returns.
   */
  lemma StoredResults(t: Tools, c: Config, worktrees: map<string, Worktree>, steps: seq<CutStep>, id: string, i: nat)
    requires id in RunCut(t, c, Initial(worktrees), steps).sets
    requires 1 <= i <= |RunCut(t, c, Initial(worktrees), steps).sets[id].operations|
    ensures var cs := RunCut(t, c, Initial(worktrees), steps).sets[id];
            var r := cs.operations[i - 1].result;
            && r.ordinal == i && r.revision == i + 1
            && (NeverCut(steps, id) ==>
                  && Fold(t, Materialize(cs.before), cs.operations[..i]).Some?
                  && var d := Fold(t, Materialize(cs.before), cs.operations[..i]).value;
                     r.rows == ManifestOf(cs.before, Rebuild(cs.before, d)) && r.size == t.size(d))
  {
    hide RunCut, ManifestOf, Rebuild;
    assert AllNumbered(Initial(worktrees).sets);
    RunKeepsNumbers(t, c, Initial(worktrees), steps);
    assert Numbered(RunCut(t, c, Initial(worktrees), steps).sets[id]);
    if NeverCut(steps, id) {
      RunKeepsTold(t, c, Initial(worktrees), steps, id);
      assert Told(t, RunCut(t, c, Initial(worktrees), steps).sets[id], i);
    }
  }

  lemma NextKeepsHistory(t: Tools, c: Config, st: Store, s: CutStep, id: string)
    requires id in st.sets
    ensures id in NextCut(t, c, st, s).sets
    ensures var cs, next := st.sets[id], NextCut(t, c, st, s).sets[id];
            && cs.operations <= next.operations
            && next.workspace == cs.workspace && next.before == cs.before && next.expiresAt == cs.expiresAt
  {
    hide Effect, StageSpec;
    if s.Whole? && !s.step.Begin? && !s.step.OutsideEdit? && s.step.id == id {
      var cs, w, step := st.sets[id], Find(st.worktrees, st.sets[id].workspace), s.step;
      EffectKeepsClosed(t, c, cs, w, step);
      EffectOperations(t, c, cs, w, step);
      if step.Stage? {
        StageEffect(t, c, cs, w, step);
        FailedStageChangesNothing(t, c, cs, w.Some?, step.now, step.opId, step.payload);
      }
    }
  }

  /** No later step changes a recorded operation or its result, the captured tree, the workspace or the deadline. */
  lemma {:induction false} HistoryStays(t: Tools, c: Config, st: Store, steps: seq<CutStep>, id: string)
    requires id in st.sets
    ensures id in RunCut(t, c, st, steps).sets
    ensures var cs, later := st.sets[id], RunCut(t, c, st, steps).sets[id];
            && cs.operations <= later.operations
            && later.workspace == cs.workspace && later.before == cs.before && later.expiresAt == cs.expiresAt
    decreases |steps|
  {
    hide NextCut;
    if steps != [] {
      NextKeepsHistory(t, c, st, steps[0], id);
      HistoryStays(t, c, NextCut(t, c, st, steps[0]), steps[1..], id);
    }
  }
}
