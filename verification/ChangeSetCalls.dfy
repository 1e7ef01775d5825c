/**
 What each call of the change-set store answers, and when: the conditions are those
 a caller can check, over every store that is reachable wherever calls die.
 */
module ChangeSetCalls {
  import opened Common
  import opened Paths
  import opened Trees
  import opened Restore
  import opened ChangeSets
  import opened Commits
  import opened ChangeSetRuns
  import opened ChangeSetCuts

  // -------------------------------------------------------------------- commit

  /** The digest names this set, its present revision and edits, its captured tree and its after tree. */
  ghost predicate Names(digest: Digest, id: string, cs: ChangeSet) {
    cs.after.Some?
    && digest == Digest(id, |cs.operations| + 1, cs.before, cs.after.value, Inputs(cs.operations))
  }

  /** Which answer a commit gives, and what it may have changed. */
  ghost predicate CommitAnswered(id: string, cs: ChangeSet, w: Option<Worktree>, digest: Digest,
                                 expectedTree: Option<Tree>, crash: CommitCrash,
                                 next: ChangeSet, v: Option<Worktree>, outcome: CommitOutcome) {
    var right := Names(digest, id, cs);
    var wanted := expectedTree == None || expectedTree == Some(cs.before);
    var admitted := cs.status.Validated? && right && wanted && w.Some? && w.value.files == cs.before;
    && (admitted <==> !outcome.CommitRefused? && outcome != CommitDone(true))
    && (admitted ==> next.rollback.Some? && (next.status.Validated? <==> crash.BeforeIntent?))
    && (!admitted ==> next == cs && v == w)
    && (outcome == CommitDone(true) <==> cs.status.Committed? && right)
    && (outcome == CommitRefused(IdempotencyConflict) <==> cs.status.Committed? && !right)
    && (outcome == CommitRefused(InvalidState) <==>
        cs.status.Committing? || cs.status.RecoveryNeeded? || cs.status.RolledBack? || cs.status.Expired?)
    && (outcome == CommitRefused(NotValidated) <==> cs.status.Open? || (cs.status.Validated? && !right))
    && (outcome == CommitRefused(Conflict) <==>
        cs.status.Validated? && right && (!wanted || (w.Some? && w.value.files != cs.before)))
    && (outcome == CommitRefused(WorkspaceMissing) <==> cs.status.Validated? && right && wanted && w.None?)
  }

  /**
   Commit gets past its refusals if and only if the set is validated, the digest is
   the right one, the caller expects no tree or the captured one, and the worktree is
   the captured tree; which refusal or replay it answers otherwise, each with its
   exact condition, and then nothing has changed.
   */
  lemma CommitAdmission(t: Tools, c: Config, worktrees: map<string, Worktree>, steps: seq<CutStep>, id: string,
                        digest: Digest, expectedTree: Option<Tree>, env: CommitEnv)
    requires id in RunCut(t, c, Initial(worktrees), steps).sets
    ensures var st := RunCut(t, c, Initial(worktrees), steps);
            var cs := st.sets[id];
            var w := Find(st.worktrees, cs.workspace);
            var (next, v, outcome) := CommitSpec(cs, w, digest, expectedTree, env);
            CommitAnswered(id, cs, w, digest, expectedTree, env.crash, next, v, outcome)
  {
    hide RunCut, ManifestOf, Apply, SnapshotOf, PathsOf;
    ValidatedMeansBound(t, c, worktrees, steps, id);
    var st := RunCut(t, c, Initial(worktrees), steps);
    var cs := st.sets[id];
    var w := Find(st.worktrees, cs.workspace);
    if w.Some? && cs.after.Some? {
      ApplyAnswers(cs, w.value, cs.after.value, SnapshotOf(w.value, PathsOf(cs.rows)), env);
    }
  }

  /** Once the intent is recorded no call is refused, and the row is no longer validated. */
  lemma ApplyAnswers(cs: ChangeSet, w: Worktree, after: Tree, s: Snapshot, env: CommitEnv)
    ensures var (next, v, outcome) := Apply(cs, w, after, s, env);
            !outcome.CommitRefused? && outcome != CommitDone(true)
            && !next.status.Validated? && next.rollback == Some(s)
  {
    hide Confine, RestoreAll, CrashState, PathsOf;
  }

  // --------------------------------------------------------------------- stage

  /** What the edit makes of the staging directory, unless it raises. */
  function Effected(t: Tools, cs: ChangeSet, payload: Payload): Option<Directory> {
    if cs.staging.None? then None
    else
      match t.apply(cs.staging.value, payload)
      case Edited(d) => Some(d)
      case Raised(_) => None
  }

  /** Which answer a stage call gives, and what is left of the set if it is not recorded. */
  ghost predicate StageAnswered(t: Tools, c: Config, cs: ChangeSet, present: bool, now: int, opId: string,
                                payload: Payload, next: ChangeSet, outcome: StageOutcome) {
    var ops := cs.operations;
    var seen := exists i :: 0 <= i < |ops| && ops[i].id == opId;
    var accepting := cs.status.Open? || cs.status.Validated?;
    var turn := !seen && accepting && now < cs.expiresAt;
    var begun := turn && |ops| < c.maxOperations;
    var d := Effected(t, cs, payload);
    var small := d.Some? && t.size(d.value) <= c.maxStagingBytes;
    var few := d.Some? && |ManifestOf(cs.before, Rebuild(cs.before, d.value))| <= c.maxChangedFiles;
    && (outcome.Staged? <==> begun && small && present && few)
    && (outcome == StageRefused(EditFailed) <==> begun && d.None?)
    && (outcome == StageRefused(WorkspaceMissing) <==> begun && small && !present)
    && (outcome == StageRefused(LimitExceeded) <==>
        turn && (!begun || (d.Some? && (!small || (present && !few)))))
    && (outcome == StageRefused(HasExpired) <==> !seen && accepting && cs.expiresAt <= now)
    && (outcome == StageRefused(InvalidState) <==> !seen && !accepting)
    && (outcome == StageRefused(HasExpired) ==> next == cs.(status := Expired, staging := None))
    && (!outcome.Staged? && outcome != StageRefused(HasExpired) ==> next == cs)
    && forall i :: 0 <= i < |ops| && ops[i].id == opId ==>
         outcome == if ops[i].payload == payload then Replayed(ops[i].result) else StageRefused(IdempotencyConflict)
  }

  /**
   A stage call is recorded if and only if its id is new, the set is open or validated
   and not overdue, no limit is reached, the edit applies and the workspace exists.
   Every other answer with its exact condition; a set found overdue is expired, and
   otherwise nothing has changed.
   */
  lemma StageAnswers(t: Tools, c: Config, worktrees: map<string, Worktree>, steps: seq<CutStep>, id: string,
                     now: int, opId: string, payload: Payload)
    requires id in RunCut(t, c, Initial(worktrees), steps).sets
    ensures var st := RunCut(t, c, Initial(worktrees), steps);
            var cs := st.sets[id];
            var (next, outcome) := StageSpec(t, c, cs, cs.workspace in st.worktrees, now, opId, payload);
            StageAnswered(t, c, cs, cs.workspace in st.worktrees, now, opId, payload, next, outcome)
  {
    hide RunCut, ManifestOf, Rebuild, EditSpec, Effected, FindOperation, LogOk;
    ReachableLog(t, c, worktrees, steps, id);
    var st := RunCut(t, c, Initial(worktrees), steps);
    var cs := st.sets[id];
    FoundAt(cs, opId);
    if cs.staging.Some? {
      EditAnswers(t, c, cs, cs.workspace in st.worktrees, opId, payload);
    } else {
      NothingEffected(t, cs, payload);
    }
  }

  lemma NothingEffected(t: Tools, cs: ChangeSet, payload: Payload)
    requires cs.staging.None?
    ensures Effected(t, cs, payload) == None
  {
  }

  lemma EditAnswers(t: Tools, c: Config, cs: ChangeSet, present: bool, opId: string, payload: Payload)
    requires cs.staging.Some?
    ensures var (next, outcome) := EditSpec(t, c, cs, present, opId, payload);
            var d := Effected(t, cs, payload);
            var small := d.Some? && t.size(d.value) <= c.maxStagingBytes;
            var few := d.Some? && |ManifestOf(cs.before, Rebuild(cs.before, d.value))| <= c.maxChangedFiles;
            && (outcome.Staged? <==> small && present && few)
            && (outcome == StageRefused(EditFailed) <==> d.None?)
            && (outcome == StageRefused(WorkspaceMissing) <==> small && !present)
            && (outcome == StageRefused(LimitExceeded) <==> d.Some? && (!small || (present && !few)))
            && (!outcome.Staged? ==> next == cs && outcome.StageRefused?
                                     && outcome.error !in {HasExpired, InvalidState, IdempotencyConflict})
  {
    hide ManifestOf, Rebuild, MaxOrdinal;
  }

  lemma ReachableLog(t: Tools, c: Config, worktrees: map<string, Worktree>, steps: seq<CutStep>, id: string)
    requires id in RunCut(t, c, Initial(worktrees), steps).sets
    ensures LogOk(RunCut(t, c, Initial(worktrees), steps).sets[id])
  {
    RunKeepsAgreed(t, c, Initial(worktrees), steps);
  }

  /** With distinct ids, the operation found is the only one with that id. */
  lemma FoundAt(cs: ChangeSet, opId: string)
    requires LogOk(cs)
    ensures var ops := cs.operations;
            && (FindOperation(ops, opId).Some? <==> exists i :: 0 <= i < |ops| && ops[i].id == opId)
            && forall i :: 0 <= i < |ops| && ops[i].id == opId ==> FindOperation(ops, opId) == Some(ops[i])
  {
    hide FindOperation;
    var ops := cs.operations;
    var found := FindOperation(ops, opId);
    if found.Some? {
      var k :| 0 <= k < |ops| && ops[k] == found.value;
    }
  }

  /**
   What a recorded stage call returns: the ordinal it got, the revision the set now
   has, the manifest and size of what is staged now, and whether it undid a validation.
   In a set none of whose own stage calls died that is the fold of the recorded edits.
   */
  lemma StagedResult(t: Tools, c: Config, worktrees: map<string, Worktree>, steps: seq<CutStep>, id: string,
                     now: int, opId: string, payload: Payload)
    requires id in RunCut(t, c, Initial(worktrees), steps).sets
    ensures var st := RunCut(t, c, Initial(worktrees), steps);
            var cs := st.sets[id];
            var (next, outcome) := StageSpec(t, c, cs, cs.workspace in st.worktrees, now, opId, payload);
            outcome.Staged? ==>
              var r, n := outcome.result, |cs.operations| + 1;
              && next.operations == cs.operations + [Operation(opId, payload, n, r)]
              && r.ordinal == n == |next.operations| && r.revision == n + 1 == next.revision
              && (r.invalidated <==> cs.status.Validated?)
              && next.staging.Some? && r.size == t.size(next.staging.value)
              && r.rows == next.rows == ManifestOf(cs.before, Rebuild(cs.before, next.staging.value))
              && next.status.Open? && next.digest.None? && next.after.None?
              && next.before == cs.before && next.workspace == cs.workspace && next.expiresAt == cs.expiresAt
              && (NeverCut(steps, id) ==> next.staging == Fold(t, Materialize(cs.before), next.operations))
  {
    hide RunCut, ManifestOf, Rebuild;
    ReachableLog(t, c, worktrees, steps, id);
    var st := RunCut(t, c, Initial(worktrees), steps);
    var cs := st.sets[id];
    MaxOrdinalIsCount(cs.operations);
    var (next, outcome) := StageSpec(t, c, cs, cs.workspace in st.worktrees, now, opId, payload);
    if outcome.Staged? && NeverCut(steps, id) {
      OnlyCutSetsDrift(t, c, worktrees, steps, id);
      assert next.operations[..|next.operations| - 1] == cs.operations;
    }
  }

  // ------------------------------------------------------------------ validate

  /** Which answer a validation gives, and what it makes of the row. */
  ghost predicate ValidateAnswered(t: Tools, c: Config, id: string, cs: ChangeSet, present: bool, now: int,
                                   expectedRevision: int, defaultProfile: bool, payloadsIntact: bool,
                                   next: ChangeSet, outcome: ValidateOutcome) {
    var accepting := cs.status.Open? || cs.status.Validated?;
    var current := accepting && now < cs.expiresAt && expectedRevision == |cs.operations| + 1;
    var examined := current && defaultProfile && present;
    var whole := payloadsIntact && cs.staging.Some?;
    var small := whole && t.size(cs.staging.value) <= c.maxStagingBytes;
    var after := if cs.staging.Some? then Rebuild(cs.before, cs.staging.value) else cs.before;
    var same := small && cs.rows == ManifestOf(cs.before, after);
    var few := same && |cs.rows| <= c.maxChangedFiles;
    var passes := few && t.textual(cs.before, after) && t.applies(cs.before, after);
    var digest := Digest(id, |cs.operations| + 1, cs.before, after, Inputs(cs.operations));
    && (outcome == Bound(digest) <==> examined && passes)
    && (outcome.Bound? ==> outcome.digest == digest
                           && next == cs.(status := Validated, digest := Some(digest), after := Some(after),
                                          patch := Some((cs.before, after))))
    && (outcome == ValidateRefused(HasExpired) <==> accepting && cs.expiresAt <= now)
    && (outcome == ValidateRefused(InvalidState) <==> !accepting)
    && (outcome == ValidateRefused(Conflict) <==>
        accepting && now < cs.expiresAt && expectedRevision != |cs.operations| + 1)
    && (outcome == ValidateRefused(WorkspaceMissing) <==> current && defaultProfile && !present)
    && (outcome == ValidateRefused(LimitExceeded) <==> examined && ((whole && !small) || (same && !few)))
    && (outcome == ValidateRefused(ValidationFailed) <==>
        (current && !defaultProfile) || (examined && (!whole || (small && !same) || (few && !passes))))
    && (outcome == ValidateRefused(HasExpired) ==> next == cs.(status := Expired, staging := None))
    && (examined && !outcome.Bound? ==> next == cs.(status := Open, digest := None, after := None))
    && (!examined && outcome != ValidateRefused(HasExpired) ==> next == cs)
  }

  /**
   Validation binds the set if and only if it is open or validated, not overdue, of
   the expected revision, its stored edits are intact, the staged files make the
   stored manifest, within both limits, and their diff is textual and applies; a set
   that was examined and rejected is open again, and no other refusal changes it
   unless it is found overdue.
   */
  lemma ValidateAnswers(t: Tools, c: Config, worktrees: map<string, Worktree>, steps: seq<CutStep>, id: string,
                        now: int, expectedRevision: int, defaultProfile: bool, payloadsIntact: bool)
    requires id in RunCut(t, c, Initial(worktrees), steps).sets
    ensures var st := RunCut(t, c, Initial(worktrees), steps);
            var cs := st.sets[id];
            var present := cs.workspace in st.worktrees;
            var (next, outcome) := ValidateSpec(t, c, id, cs, present, now, expectedRevision, defaultProfile,
                                                payloadsIntact);
            ValidateAnswered(t, c, id, cs, present, now, expectedRevision, defaultProfile, payloadsIntact,
                             next, outcome)
  {
    hide RunCut, ManifestOf, Rebuild;
    ReachableLog(t, c, worktrees, steps, id);
  }

  /** In a set none of whose own stage calls died the staged files always make the stored manifest. */
  lemma UncutManifest(t: Tools, c: Config, worktrees: map<string, Worktree>, steps: seq<CutStep>, id: string)
    requires id in RunCut(t, c, Initial(worktrees), steps).sets && NeverCut(steps, id)
    ensures var cs := RunCut(t, c, Initial(worktrees), steps).sets[id];
            cs.status.Open? || cs.status.Validated? ==>
              && cs.staging.Some? && cs.staging == Fold(t, Materialize(cs.before), cs.operations)
              && cs.rows == ManifestOf(cs.before, Rebuild(cs.before, cs.staging.value))
  {
    hide RunCut, ManifestOf, Rebuild, Inv;
    OnlyCutSetsDrift(t, c, worktrees, steps, id);
    RunKeepsOne(t, c, Initial(worktrees), steps, id);
    var cs := RunCut(t, c, Initial(worktrees), steps).sets[id];
    if cs.status.Open? || cs.status.Validated? { StagesItsMeaning(t, id, cs); }
  }

  // -------------------------------------------------------- begin and roll back

  /** Which answer a begin gives, and the store it leaves. */
  ghost predicate BeginAnswered(t: Tools, c: Config, st: Store, r: BeginRequest, next: Store, error: Option<Error>) {
    var asked := c.enabled && !r.blankExplanation;
    var ready := asked && r.ws in st.worktrees && r.supported;
    var small := ready && t.size(Materialize(st.worktrees[r.ws].files)) <= c.maxStagingBytes;
    var busy := exists id :: && id in st.sets && st.sets[id].workspace == r.ws
                             && st.sets[id].status !in {Committed, RolledBack, Status.Expired};
    && (error == None <==> small && r.id !in st.sets && !busy)
    && (error == Some(Disabled) <==> !c.enabled)
    && (error == Some(InvalidInput) <==> c.enabled && r.blankExplanation)
    && (error == Some(WorkspaceMissing) <==> asked && r.ws !in st.worktrees)
    && (error == Some(InvalidState) <==>
        asked && r.ws in st.worktrees && (!r.supported || (small && r.id in st.sets)))
    && (error == Some(LimitExceeded) <==> ready && !small)
    && (error == Some(AlreadyActive) <==> small && r.id !in st.sets && busy)
    && next.worktrees == st.worktrees
    && (error.Some? ==> next == st)
    && (error.None? ==>
          && r.id in next.sets && next.sets == st.sets[r.id := next.sets[r.id]]
          && var cs := next.sets[r.id];
             && cs.workspace == r.ws && cs.status == Open && cs.revision == 1 && cs.expiresAt == r.now + c.ttl
             && cs.before == st.worktrees[r.ws].files && cs.operations == [] && cs.rows == []
             && cs.staging.Some? && Rebuild(cs.before, cs.staging.value) == cs.before
             && cs.digest == None && cs.after == None && cs.patch == None && cs.rollback == None)
  }

  /**
   A change set begins if and only if change sets are enabled, the explanation is not
   blank, the workspace exists, is supported and fits the limit, and no set of it is
   still active; it captures the worktree and stages that very tree.
   */
  lemma BeginAnswers(t: Tools, c: Config, st: Store, r: BeginRequest)
    ensures var (next, error) := BeginSpec(t, c, st, r);
            BeginAnswered(t, c, st, r, next, error)
  {
    hide Rebuild, Materialize;
    if r.ws in st.worktrees { RebuildUntouched(st.worktrees[r.ws].files); }
  }

  /**
   Rolling back succeeds exactly for an open, validated or rolled back set, whatever
   its deadline; the set is then rolled back, unbound and without staging, and every
   other answer leaves it alone.
   */
  lemma RollbackAnswers(cs: ChangeSet)
    ensures var (next, error) := RollbackSpec(cs);
            && (error == None <==> cs.status.Open? || cs.status.Validated? || cs.status.RolledBack?)
            && (error == Some(AlreadyCommitted) <==> cs.status.Committed?)
            && (error == Some(NeedsRecovery) <==> cs.status.Committing? || cs.status.RecoveryNeeded?)
            && (error == Some(HasExpired) <==> cs.status.Expired?)
            && (error == None ==> next.status == RolledBack)
            && (next != cs ==> error == None
                               && next == cs.(status := RolledBack, digest := None, after := None, staging := None))
  {
  }

  // ----------------------------------------------------------------- reconcile

  /**
   What recovery relies on: a row that is `committing` has its after tree, and the
   rollback snapshot of its captured tree.
   */
  ghost predicate Recoverable(cs: ChangeSet) {
    cs.status.Committing? ==>
      cs.after.Some? && cs.rollback == Some(SnapshotOf(Worktree(cs.before, {}), PathsOf(cs.rows)))
  }

  /** A snapshot looks at files only. */
  lemma SnapshotOfFiles(w: Worktree, dirs: set<string>, paths: seq<string>)
    ensures SnapshotOf(w, paths) == SnapshotOf(Worktree(w.files, dirs), paths)
  {
    forall i | 0 <= i < |paths| ensures RollbackRowOf(w, paths[i]) == RollbackRowOf(Worktree(w.files, dirs), paths[i]) {
    }
  }

  lemma CommitKeepsRecoverable(cs: ChangeSet, w: Option<Worktree>, digest: Digest, expectedTree: Option<Tree>,
                               env: CommitEnv)
    requires Recoverable(cs)
    ensures Recoverable(CommitSpec(cs, w, digest, expectedTree, env).0)
  {
    hide Apply, SnapshotOf, PathsOf;
    CommitKeepsLog(cs, w, digest, expectedTree, env);
    if w.Some? && cs.after.Some? {
      ApplyAnswers(cs, w.value, cs.after.value, SnapshotOf(w.value, PathsOf(cs.rows)), env);
      SnapshotOfFiles(w.value, {}, PathsOf(cs.rows));
    }
  }

  lemma EffectKeepsRecoverable(t: Tools, c: Config, cs: ChangeSet, w: Option<Worktree>, step: Step)
    requires !step.Begin? && !step.OutsideEdit? && Recoverable(cs)
    ensures Recoverable(Effect(t, c, cs, w, step).0)
  {
    hide CommitSpec, ReconcileSpec, EditSpec, Objection, SnapshotOf, PathsOf;
    match step {
      case Commit(_, digest, expectedTree, env) => CommitKeepsRecoverable(cs, w, digest, expectedTree, env);
      case Reconcile(_, denied, temps) => ReconcileKeepsLog(cs, w, denied, temps);
      case Stage(_, now, opId, payload) =>
        if cs.staging.Some? { EditOpens(t, c, cs, w.Some?, opId, payload); }
      case Validate(_, _, _, _, _) =>
      case Rollback(_) =>
      case ExpireOne(_, _) =>
      case ReconcileCut(_, _, _, _) =>
    }
  }

  lemma EditOpens(t: Tools, c: Config, cs: ChangeSet, present: bool, opId: string, payload: Payload)
    requires cs.staging.Some?
    ensures var next := EditSpec(t, c, cs, present, opId, payload).0;
            next == cs || next.status.Open?
  {
    hide ManifestOf, Rebuild, MaxOrdinal;
  }

  ghost predicate AllRecoverable(sets: map<string, ChangeSet>) {
    forall id :: id in sets ==> Recoverable(sets[id])
  }

  lemma NextKeepsRecoverable(t: Tools, c: Config, st: Store, s: CutStep)
    requires AllRecoverable(st.sets)
    ensures AllRecoverable(NextCut(t, c, st, s).sets)
  {
    hide Effect, SnapshotOf, PathsOf;
    if s.Whole? && !s.step.Begin? && !s.step.OutsideEdit? && s.step.id in st.sets {
      var cs := st.sets[s.step.id];
      EffectKeepsRecoverable(t, c, cs, Find(st.worktrees, cs.workspace), s.step);
    }
  }

  lemma {:induction false} RunKeepsRecoverable(t: Tools, c: Config, st: Store, steps: seq<CutStep>)
    requires AllRecoverable(st.sets)
    ensures AllRecoverable(RunCut(t, c, st, steps).sets)
    decreases |steps|
  {
    hide AllRecoverable, NextCut;
    if steps != [] {
      NextKeepsRecoverable(t, c, st, steps[0]);
      RunKeepsRecoverable(t, c, NextCut(t, c, st, steps[0]), steps[1..]);
    }
  }

  /** Which verdict a row gets from the reconcile pass, and the worktree it leaves. */
  ghost predicate ReconcileAnswered(cs: ChangeSet, w: Option<Worktree>, denied: string -> bool, temps: nat -> string,
                                    next: ChangeSet, v: Option<Worktree>) {
    && next == cs.(status := next.status)
    && (!cs.status.Committing? ==> next == cs && v == w)
    && (cs.status.Committing? && w.None? ==> next.status == RecoveryNeeded && v == w)
    && (cs.status.Committing? && w.Some? ==>
          && cs.after.Some?
          && var applied, untouched := w.value.files == cs.after.value, w.value.files == cs.before;
             var tried := RestoreAll(w.value, denied, SnapshotOf(Worktree(cs.before, {}), PathsOf(cs.rows)), temps);
             && v == (if applied || untouched then w else Some(tried.w))
             && next.status in {Committed, RolledBack, RecoveryNeeded}
             && (next.status == Committed <==> applied)
             && (next.status == RolledBack <==>
                 !applied && (untouched || (tried.Done? && tried.w.files == cs.before))))
  }

  /**
   Every row of every reachable store gets its verdict from its own worktree alone:
   the after tree means committed, the captured tree, found or put back by the
   snapshot of that very tree, means rolled back, anything else needs recovery.
   */
  lemma ReconcileAnswers(t: Tools, c: Config, worktrees: map<string, Worktree>, steps: seq<CutStep>, id: string,
                         denied: string -> bool, temps: nat -> string)
    requires id in RunCut(t, c, Initial(worktrees), steps).sets
    ensures var st := RunCut(t, c, Initial(worktrees), steps);
            var cs := st.sets[id];
            var w := Find(st.worktrees, cs.workspace);
            var (next, v) := ReconcileSpec(cs, w, denied, temps);
            ReconcileAnswered(cs, w, denied, temps, next, v)
  {
    hide RunCut, RestoreAll, SnapshotOf, PathsOf;
    RunKeepsRecoverable(t, c, Initial(worktrees), steps);
    var cs := RunCut(t, c, Initial(worktrees), steps).sets[id];
    assert Recoverable(cs);
  }
}
