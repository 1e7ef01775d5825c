/**
 Runs in which stage calls may die as well: a crash between the first write to the
 staging directory and the transaction leaves the writes in place and no record.
 */
module ChangeSetCuts {
  import opened Common
  import opened Paths
  import opened Trees
  import opened Restore
  import opened ChangeSets
  import opened Commits
  import opened ChangeSetRuns

  datatype CutStep = Whole(step: Step) | StageCut(id: string, dirty: Directory)

  ghost function NextCut(t: Tools, c: Config, st: Store, s: CutStep): Store {
    match s
    case Whole(step) => Next(t, c, st, step)
    case StageCut(id, dirty) =>
      if id in st.sets && (st.sets[id].status.Open? || st.sets[id].status.Validated?) && st.sets[id].staging.Some?
      then st.(sets := st.sets[id := Interrupted(st.sets[id], dirty)]) else st
  }

  ghost function RunCut(t: Tools, c: Config, st: Store, steps: seq<CutStep>): Store
    decreases |steps|
  {
    if steps == [] then st else RunCut(t, c, NextCut(t, c, st, steps[0]), steps[1..])
  }

  /** The log is in order, and from validation on after tree, manifest, patch and digest are about one tree. */
  ghost predicate Agreed(id: string, cs: ChangeSet) {
    && LogOk(cs)
    && (cs.status.Validated? || cs.status.Committing? || cs.status.Committed? ==>
          && cs.after.Some? && cs.rows == ManifestOf(cs.before, cs.after.value)
          && cs.patch == Some((cs.before, cs.after.value)) && cs.digest == Some(DigestOf(id, cs, cs.after.value)))
  }

  ghost predicate AllAgreed(sets: map<string, ChangeSet>) {
    forall id :: id in sets ==> Agreed(id, sets[id])
  }

  lemma StageKeepsAgreed(t: Tools, c: Config, id: string, cs: ChangeSet, present: bool, now: int, opId: string,
                         payload: Payload)
    requires Agreed(id, cs)
    ensures Agreed(id, StageSpec(t, c, cs, present, now, opId, payload).0)
  {
    MaxOrdinalIsCount(cs.operations);
  }

  lemma ValidateKeepsAgreed(t: Tools, c: Config, id: string, cs: ChangeSet, present: bool, now: int,
                            expectedRevision: int, defaultProfile: bool, payloadsIntact: bool)
    requires Agreed(id, cs)
    ensures Agreed(id, ValidateSpec(t, c, id, cs, present, now, expectedRevision, defaultProfile, payloadsIntact).0)
  {
    hide Agreed, Rebuild, ManifestOf;
    if cs.staging.Some? { BoundAgreed(t, c, id, cs, payloadsIntact); }
    UnboundAgreed(id, cs);
  }

  lemma BoundAgreed(t: Tools, c: Config, id: string, cs: ChangeSet, payloadsIntact: bool)
    requires Agreed(id, cs) && cs.staging.Some?
    ensures Objection(t, c, cs, payloadsIntact).None? ==>
              Agreed(id, BoundSet(id, cs, Rebuild(cs.before, cs.staging.value)))
  {
    hide Rebuild, ManifestOf;
  }

  lemma UnboundAgreed(id: string, cs: ChangeSet)
    requires Agreed(id, cs)
    ensures Agreed(id, Expire(cs)) && Agreed(id, Reopened(cs))
  {
    hide ManifestOf;
  }

  lemma EffectKeepsAgreed(t: Tools, c: Config, id: string, cs: ChangeSet, w: Option<Worktree>, step: Step)
    requires Agreed(id, cs) && !step.Begin? && !step.OutsideEdit? && step.id == id
    ensures Agreed(id, Effect(t, c, cs, w, step).0)
  {
    hide StageSpec, ValidateSpec, CommitSpec, ReconcileSpec, ManifestOf;
    match step {
      case Stage(_, now, opId, payload) => StageKeepsAgreed(t, c, id, cs, w.Some?, now, opId, payload);
      case Validate(_, now, revision, profile, intact) =>
          ValidateKeepsAgreed(t, c, id, cs, w.Some?, now, revision, profile, intact);
      case Rollback(_) =>
      case ExpireOne(_, _) =>
      case Commit(_, digest, expectedTree, env) => CommitKeepsLog(cs, w, digest, expectedTree, env);
      case Reconcile(_, denied, temps) => ReconcileKeepsLog(cs, w, denied, temps);
      case ReconcileCut(_, _, _, _) =>
    }
  }

  lemma NextKeepsAgreed(t: Tools, c: Config, st: Store, s: CutStep)
    requires AllAgreed(st.sets)
    ensures AllAgreed(NextCut(t, c, st, s).sets)
  {
    hide Effect, ManifestOf;
    if s.Whole? && !s.step.Begin? && !s.step.OutsideEdit? && s.step.id in st.sets {
      EffectKeepsAgreed(t, c, s.step.id, st.sets[s.step.id], Find(st.worktrees, st.sets[s.step.id].workspace), s.step);
    }
  }

  lemma {:induction false} RunKeepsAgreed(t: Tools, c: Config, st: Store, steps: seq<CutStep>)
    requires AllAgreed(st.sets)
    ensures AllAgreed(RunCut(t, c, st, steps).sets)
    decreases |steps|
  {
    hide AllAgreed, NextCut;
    if steps != [] {
      NextKeepsAgreed(t, c, st, steps[0]);
      RunKeepsAgreed(t, c, NextCut(t, c, st, steps[0]), steps[1..]);
    }
  }

  /**
   Wherever stage calls, commits and reconcile passes die: in every reachable store
   the stored after tree, manifest, patch and digest of a validated, committing or
   committed set are all about the same tree, and the digest names the present
   revision and list of edits.
   */
  lemma ValidatedMeansBound(t: Tools, c: Config, worktrees: map<string, Worktree>, steps: seq<CutStep>, id: string)
    requires id in RunCut(t, c, Initial(worktrees), steps).sets
    ensures var cs := RunCut(t, c, Initial(worktrees), steps).sets[id];
            && cs.revision == |cs.operations| + 1
            && (forall i :: 0 <= i < |cs.operations| ==> cs.operations[i].ordinal == i + 1)
            && (cs.status.Validated? || cs.status.Committing? || cs.status.Committed? ==>
                  && cs.after.Some? && cs.rows == ManifestOf(cs.before, cs.after.value)
                  && cs.patch == Some((cs.before, cs.after.value))
                  && cs.digest == Some(Digest(id, |cs.operations| + 1, cs.before, cs.after.value,
                                              Inputs(cs.operations))))
  {
    RunKeepsAgreed(t, c, Initial(worktrees), steps);
  }

  lemma CommitDoneMeans(cs: ChangeSet, w: Option<Worktree>, digest: Digest, expectedTree: Option<Tree>, env: CommitEnv)
    ensures var (next, v, outcome) := CommitSpec(cs, w, digest, expectedTree, env);
            outcome == CommitDone(false) ==>
              && cs.status.Validated? && cs.digest == Some(digest) && cs.after.Some?
              && w.Some? && w.value.files == cs.before && v.Some? && v.value.files == cs.after.value
                  && next.status.Committed?
  {
    hide Confine, SnapshotOf, RestoreAll, CrashState, PathsOf;
  }

  /**
   A commit that reports success, from any such store, was given the digest of the
   present revision and edits, found the captured tree, and leaves exactly the tree
   that the digest names.
   */
  lemma CommittedIsTheDigestsTree(t: Tools, c: Config, worktrees: map<string, Worktree>, steps: seq<CutStep>,
                                  id: string,
                                  digest: Digest, expectedTree: Option<Tree>, env: CommitEnv)
    requires id in RunCut(t, c, Initial(worktrees), steps).sets
    ensures var st := RunCut(t, c, Initial(worktrees), steps);
            var cs := st.sets[id];
            var (next, v, outcome) := CommitSpec(cs, Find(st.worktrees, cs.workspace), digest, expectedTree, env);
            outcome == CommitDone(false) ==>
              && digest.id == id && digest.revision == |cs.operations| + 1 && digest.inputs == Inputs(cs.operations)
              && cs.workspace in st.worktrees && st.worktrees[cs.workspace].files == digest.before
              && v.Some? && v.value.files == digest.after && next.status.Committed?
  {
    hide RunCut, CommitSpec, ManifestOf;
    ValidatedMeansBound(t, c, worktrees, steps, id);
    var st := RunCut(t, c, Initial(worktrees), steps);
    var cs := st.sets[id];
    CommitDoneMeans(cs, Find(st.worktrees, cs.workspace), digest, expectedTree, env);
  }

  ghost predicate NeverCut(steps: seq<CutStep>, id: string) {
    forall i :: 0 <= i < |steps| && steps[i].StageCut? ==> steps[i].id != id
  }

  lemma NextKeepsOne(t: Tools, c: Config, st: Store, s: CutStep, id: string)
    requires id in st.sets ==> Inv(t, id, st.sets[id])
    requires s.StageCut? ==> s.id != id
    ensures id in NextCut(t, c, st, s).sets ==> Inv(t, id, NextCut(t, c, st, s).sets[id])
  {
    hide Effect, Inv;
    if s.Whole? {
      if s.step.Begin? {
        var r := s.step.request;
        if r.ws in st.worktrees { BegunInv(t, r.id, r.ws, st.worktrees[r.ws].files, r.now + c.ttl); }
      } else if !s.step.OutsideEdit? && s.step.id in st.sets && s.step.id == id {
        EffectKeepsInv(t, c, id, st.sets[id], Find(st.worktrees, st.sets[id].workspace), s.step);
      }
    }
  }

  lemma {:induction false} RunKeepsOne(t: Tools, c: Config, st: Store, steps: seq<CutStep>, id: string)
    requires (id in st.sets ==> Inv(t, id, st.sets[id])) && NeverCut(steps, id)
    ensures id in RunCut(t, c, st, steps).sets ==> Inv(t, id, RunCut(t, c, st, steps).sets[id])
    decreases |steps|
  {
    hide Inv, NextCut;
    if steps != [] {
      NextKeepsOne(t, c, st, steps[0], id);
      RunKeepsOne(t, c, NextCut(t, c, st, steps[0]), steps[1..], id);
    }
  }

  /**
   A set none of whose own stage calls died stages the fold of its recorded edits,
   whatever happened to the others.
   */
  lemma OnlyCutSetsDrift(t: Tools, c: Config, worktrees: map<string, Worktree>, steps: seq<CutStep>, id: string)
    requires id in RunCut(t, c, Initial(worktrees), steps).sets && NeverCut(steps, id)
    ensures var cs := RunCut(t, c, Initial(worktrees), steps).sets[id];
            && Fold(t, Materialize(cs.before), cs.operations).Some?
            && (cs.status.Open? || cs.status.Validated? ==>
                cs.staging == Fold(t, Materialize(cs.before), cs.operations))
  {
    RunKeepsOne(t, c, Initial(worktrees), steps, id);
  }

  // -------------------------------------------------------- what cut calls cannot break

  lemma NextCutKeepsApart(t: Tools, c: Config, st: Store, s: CutStep)
    requires OneActive(st.sets)
    ensures OneActive(NextCut(t, c, st, s).sets)
  {
    hide OneActive, Next;
    match s
    case Whole(step) => NextKeepsApart(t, c, st, step);
    case StageCut(id, dirty) => if id in st.sets { ChangedApart(st.sets, id, Interrupted(st.sets[id], dirty)); }
  }

  lemma {:induction false} RunCutKeepsApart(t: Tools, c: Config, st: Store, steps: seq<CutStep>)
    requires OneActive(st.sets)
    ensures OneActive(RunCut(t, c, st, steps).sets)
    decreases |steps|
  {
    hide OneActive, NextCut;
    if steps != [] {
      NextCutKeepsApart(t, c, st, steps[0]);
      RunCutKeepsApart(t, c, NextCut(t, c, st, steps[0]), steps[1..]);
    }
  }

  /** At most one active change set per workspace, in every store that is reachable with calls dying anywhere. */
  lemma OneActivePerWorkspace(t: Tools, c: Config, worktrees: map<string, Worktree>, steps: seq<CutStep>, a: string,
                              b: string)
    requires var sets := RunCut(t, c, Initial(worktrees), steps).sets;
             a in sets && b in sets && a != b && sets[a].workspace == sets[b].workspace
    ensures var sets := RunCut(t, c, Initial(worktrees), steps).sets;
            !(Active(sets[a].status) && Active(sets[b].status))
  {
    RunCutKeepsApart(t, c, Initial(worktrees), steps);
  }

  /** Committed, rolled back and expired are final, wherever later calls die. */
  lemma {:induction false} TerminalIsFinal(t: Tools, c: Config, st: Store, steps: seq<CutStep>, id: string)
    requires id in st.sets && Terminal(st.sets[id].status)
    ensures id in RunCut(t, c, st, steps).sets && RunCut(t, c, st, steps).sets[id] == st.sets[id]
    decreases |steps|
  {
    if steps != [] {
      hide Next;
      if steps[0].Whole? { StepKeepsTerminal(t, c, st, steps[0].step, id); }
      TerminalIsFinal(t, c, NextCut(t, c, st, steps[0]), steps[1..], id);
    }
  }
}
