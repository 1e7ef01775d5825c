/**
 Every run of the change-set store: any interleaving of calls on any number of
 change sets and workspaces, commits and reconcile passes that die anywhere, and
 edits made to the worktrees from outside.
 */
module ChangeSetRuns {
  import opened Common
  import opened Paths
  import opened Trees
  import opened Restore
  import opened ChangeSets
  import opened Commits

  datatype Store = Store(sets: map<string, ChangeSet>, worktrees: map<string, Worktree>)

  /** The unique index over the active statuses. */
  predicate HasActive(sets: map<string, ChangeSet>, ws: string) {
    exists id :: id in sets && sets[id].workspace == ws && Active(sets[id].status)
  }

  datatype BeginRequest = BeginRequest(id: string, ws: string, blankExplanation: bool, supported: bool, now: int)

  function BeginSpec(t: Tools, c: Config, st: Store, r: BeginRequest): (Store, Option<Error>) {
    if !c.enabled then (st, Some(Disabled))
    else if r.blankExplanation then (st, Some(InvalidInput))
    else if r.ws !in st.worktrees then (st, Some(WorkspaceMissing))
    else if !r.supported then (st, Some(InvalidState))
    else
      var tree := st.worktrees[r.ws].files;
      if t.size(Materialize(tree)) > c.maxStagingBytes then (st, Some(LimitExceeded))
      else if r.id in st.sets then (st, Some(InvalidState))
      else if HasActive(st.sets, r.ws) then (st, Some(AlreadyActive))
      else (st.(sets := st.sets[r.id := Begun(r.ws, tree, r.now + c.ttl)]), None)
  }

  datatype Step =
    | Begin(request: BeginRequest)
    | Stage(id: string, now: int, opId: string, payload: Payload)
    | Validate(id: string, now: int, revision: int, defaultProfile: bool, payloadsIntact: bool)
    | Rollback(id: string)
    | ExpireOne(id: string, now: int)
    | Commit(id: string, digest: Digest, expectedTree: Option<Tree>, env: CommitEnv)
    | Reconcile(id: string, denied: string -> bool, temps: nat -> string)
    | ReconcileCut(id: string, denied: string -> bool, temps: nat -> string, crash: Crash)
    | OutsideEdit(ws: string, w: Worktree)

  function Put(worktrees: map<string, Worktree>, ws: string, w: Option<Worktree>): map<string, Worktree> {
    if w.Some? then worktrees[ws := w.value] else worktrees
  }

  function Find(worktrees: map<string, Worktree>, ws: string): Option<Worktree> {
    if ws in worktrees then Some(worktrees[ws]) else None
  }

  /** What one step makes of the change set it names and of the worktree of that set. */
  ghost function Effect(t: Tools, c: Config, cs: ChangeSet, w: Option<Worktree>, step: Step)
    : (ChangeSet, Option<Worktree>)
  {
    match step
    case Stage(id, now, opId, payload) => (StageSpec(t, c, cs, w.Some?, now, opId, payload).0, w)
    case Validate(id, now, revision, defaultProfile, intact) =>
      (ValidateSpec(t, c, id, cs, w.Some?, now, revision, defaultProfile, intact).0, w)
    case Rollback(_) => (RollbackSpec(cs).0, w)
    case ExpireOne(_, now) => (if Expiring(cs, now) then Expire(cs) else cs, w)
    case Commit(_, digest, expectedTree, env) =>
      var (next, v, outcome) := CommitSpec(cs, w, digest, expectedTree, env);
      (next, v)
    case Reconcile(_, denied, temps) => ReconcileSpec(cs, w, denied, temps)
    case ReconcileCut(_, denied, temps, crash) =>
      if cs.status.Committing? && w.Some? && cs.rollback.Some? && Some(w.value.files) != cs.after
          && w.value.files != cs.before then
        (cs, Some(CrashState(w.value, denied, cs.rollback.value, temps, crash).w))
      else (cs, w)
    case _ => (cs, w)
  }

  ghost function Next(t: Tools, c: Config, st: Store, step: Step): Store {
    match step
    case Begin(r) => BeginSpec(t, c, st, r).0
    case OutsideEdit(ws, w) => st.(worktrees := st.worktrees[ws := w])
    case _ =>
      if step.id !in st.sets then st
      else
        var cs := st.sets[step.id];
        var (next, v) := Effect(t, c, cs, Find(st.worktrees, cs.workspace), step);
        Store(st.sets[step.id := next], Put(st.worktrees, cs.workspace, v))
  }

  ghost function Run(t: Tools, c: Config, st: Store, steps: seq<Step>): Store
    decreases |steps|
  {
    if steps == [] then st else Run(t, c, Next(t, c, st, steps[0]), steps[1..])
  }

  /** Each workspace has at most one active change set. */
  ghost predicate OneActive(sets: map<string, ChangeSet>) {
    forall a, b :: a in sets && b in sets && a != b && sets[a].workspace == sets[b].workspace ==>
      !(Active(sets[a].status) && Active(sets[b].status))
  }

  /** Each change set means its recorded edits, and each workspace has at most one active one. */
  ghost predicate StoreInv(t: Tools, st: Store) {
    (forall id :: id in st.sets ==> Inv(t, id, st.sets[id])) && OneActive(st.sets)
  }

  /** A set that begins where none is active keeps them apart. */
  lemma BegunApart(sets: map<string, ChangeSet>, id: string, cs: ChangeSet)
    requires OneActive(sets) && id !in sets && !HasActive(sets, cs.workspace)
    ensures OneActive(sets[id := cs])
  {
  }

  /** A set that is not revived and stays in its workspace keeps them apart. */
  lemma ChangedApart(sets: map<string, ChangeSet>, id: string, next: ChangeSet)
    requires OneActive(sets) && id in sets
    requires next.workspace == sets[id].workspace && (Active(next.status) ==> Active(sets[id].status))
    ensures OneActive(sets[id := next])
  {
  }

  lemma CommitKeepsInv(t: Tools, id: string, cs: ChangeSet, w: Option<Worktree>, digest: Digest,
                       expectedTree: Option<Tree>, env: CommitEnv)
    requires Inv(t, id, cs)
    ensures Inv(t, id, CommitSpec(cs, w, digest, expectedTree, env).0)
  {
    var d :| Means(t, cs, d) && cs.rows == ManifestOf(cs.before, Rebuild(cs.before, d))
             && (cs.status.Open? || cs.status.Validated? ==> cs.staging == Some(d))
             && (cs.status.Validated? || cs.status.Committing? || cs.status.Committed? ==> BoundTo(id, cs, d));
    var next := CommitSpec(cs, w, digest, expectedTree, env).0;
    CommitKeepsLog(cs, w, digest, expectedTree, env);
    hide CommitSpec, Fold;
    assert Means(t, next, d);
  }

  /** A commit changes the status and the rollback snapshot of a validated set, nothing else. */
  lemma CommitKeepsLog(cs: ChangeSet, w: Option<Worktree>, digest: Digest, expectedTree: Option<Tree>, env: CommitEnv)
    ensures var next := CommitSpec(cs, w, digest, expectedTree, env).0;
            && next == cs.(status := next.status, rollback := next.rollback)
            && (next == cs || (cs.status.Validated? && !next.status.Open? && !next.status.Expired?))
  {
    hide Confine, SnapshotOf, RestoreAll, CrashState, PathsOf;
  }

  lemma ReconcileKeepsLog(cs: ChangeSet, w: Option<Worktree>, denied: string -> bool, temps: nat -> string)
    ensures var next := ReconcileSpec(cs, w, denied, temps).0;
            && next == cs.(status := next.status)
            && (next == cs || (cs.status.Committing?
                               && (next.status.Committed? || next.status.RolledBack? || next.status.RecoveryNeeded?)))
  {
    hide Reconciled;
  }

  lemma ReconcileKeepsInv(t: Tools, id: string, cs: ChangeSet, w: Option<Worktree>, denied: string -> bool,
                          temps: nat -> string)
    requires Inv(t, id, cs)
    ensures Inv(t, id, ReconcileSpec(cs, w, denied, temps).0)
  {
    var d :| Means(t, cs, d) && cs.rows == ManifestOf(cs.before, Rebuild(cs.before, d))
             && (cs.status.Open? || cs.status.Validated? ==> cs.staging == Some(d))
             && (cs.status.Validated? || cs.status.Committing? || cs.status.Committed? ==> BoundTo(id, cs, d));
    ReconcileKeepsLog(cs, w, denied, temps);
    hide ReconcileSpec, Fold;
    assert Means(t, ReconcileSpec(cs, w, denied, temps).0, d);
  }

  lemma EffectKeepsInv(t: Tools, c: Config, id: string, cs: ChangeSet, w: Option<Worktree>, step: Step)
    requires Inv(t, id, cs) && !step.Begin? && !step.OutsideEdit? && step.id == id
    ensures Inv(t, id, Effect(t, c, cs, w, step).0)
  {
    hide Inv;
    match step {
      case Stage(_, now, opId, payload) => StageInv(t, c, id, cs, w.Some?, now, opId, payload);
      case Validate(_, now, revision, profile, intact) =>
          ValidateInv(t, c, id, cs, w.Some?, now, revision, profile, intact);
      case Rollback(_) => RollbackInv(t, id, cs);
      case ExpireOne(_, _) => ExpireInv(t, id, cs);
      case Commit(_, digest, expectedTree, env) => CommitKeepsInv(t, id, cs, w, digest, expectedTree, env);
      case Reconcile(_, denied, temps) => ReconcileKeepsInv(t, id, cs, w, denied, temps);
      case ReconcileCut(_, _, _, _) =>
    }
  }

  /** A step never revives a set, moves it to another workspace or deadline, or changes one that is terminal. */
  lemma EffectKeepsClosed(t: Tools, c: Config, cs: ChangeSet, w: Option<Worktree>, step: Step)
    requires !step.Begin? && !step.OutsideEdit?
    ensures var next := Effect(t, c, cs, w, step).0;
            && next.workspace == cs.workspace
            && next.before == cs.before && next.expiresAt == cs.expiresAt
            && (Active(next.status) ==> Active(cs.status))
            && (Terminal(cs.status) ==> next == cs)
  {
    match step {
      case Commit(_, digest, expectedTree, env) => CommitKeepsLog(cs, w, digest, expectedTree, env);
      case Reconcile(_, denied, temps) => ReconcileKeepsLog(cs, w, denied, temps);
      case Stage(_, _, _, _) =>
      case Validate(_, _, _, _, _) =>
      case Rollback(_) =>
      case ExpireOne(_, _) =>
      case ReconcileCut(_, _, _, _) =>
    }
  }

  lemma NextKeepsInv(t: Tools, c: Config, st: Store, step: Step)
    requires StoreInv(t, st)
    ensures StoreInv(t, Next(t, c, st, step))
  {
    hide Inv, Effect, Active, OneActive;
    NextKeepsApart(t, c, st, step);
    if step.Begin? {
      var r := step.request;
      if r.ws in st.worktrees {
        BegunInv(t, r.id, r.ws, st.worktrees[r.ws].files, r.now + c.ttl);
      }
    } else if !step.OutsideEdit? && step.id in st.sets {
      var cs := st.sets[step.id];
      EffectKeepsInv(t, c, step.id, cs, Find(st.worktrees, cs.workspace), step);
    }
  }

  lemma NextKeepsApart(t: Tools, c: Config, st: Store, step: Step)
    requires OneActive(st.sets)
    ensures OneActive(Next(t, c, st, step).sets)
  {
    hide Effect, Active, OneActive, HasActive;
    if step.Begin? {
      var r := step.request;
      if r.ws in st.worktrees && r.id !in st.sets && !HasActive(st.sets, r.ws) {
        BegunApart(st.sets, r.id, Begun(r.ws, st.worktrees[r.ws].files, r.now + c.ttl));
      }
    } else if !step.OutsideEdit? && step.id in st.sets {
      var cs := st.sets[step.id];
      EffectKeepsClosed(t, c, cs, Find(st.worktrees, cs.workspace), step);
      ChangedApart(st.sets, step.id, Effect(t, c, cs, Find(st.worktrees, cs.workspace), step).0);
    }
  }

  lemma {:induction false} RunKeepsInv(t: Tools, c: Config, st: Store, steps: seq<Step>)
    requires StoreInv(t, st)
    ensures StoreInv(t, Run(t, c, st, steps))
    decreases |steps|
  {
    hide StoreInv, Next;
    if steps != [] {
      NextKeepsInv(t, c, st, steps[0]);
      RunKeepsInv(t, c, Next(t, c, st, steps[0]), steps[1..]);
    }
  }

  function Initial(worktrees: map<string, Worktree>): Store {
    Store(map[], worktrees)
  }

  /**
   In every reachable store each change set has ordinals 1..n and revision n + 1,
   its manifest is that of its recorded edits folded over the captured tree, an open
   or validated set stages exactly that fold, and a validated one is bound to it:
   after tree, digest and patch.
   */
  lemma ReachableSetsAreBound(t: Tools, c: Config, worktrees: map<string, Worktree>, steps: seq<Step>, id: string)
    requires id in Run(t, c, Initial(worktrees), steps).sets
    ensures var cs := Run(t, c, Initial(worktrees), steps).sets[id];
            && cs.revision == |cs.operations| + 1
            && (forall i :: 0 <= i < |cs.operations| ==> cs.operations[i].ordinal == i + 1)
            && Fold(t, Materialize(cs.before), cs.operations).Some?
            && var d := Fold(t, Materialize(cs.before), cs.operations).value;
               var after := Rebuild(cs.before, d);
               && cs.rows == ManifestOf(cs.before, after)
               && (cs.status.Open? || cs.status.Validated? ==> cs.staging == Some(d))
               && (cs.status.Validated? || cs.status.Committing? || cs.status.Committed? ==>
                     cs.after == Some(after) && cs.digest == Some(DigestOf(id, cs, after))
                         && cs.patch == Some((cs.before, after)))
  {
    assert StoreInv(t, Initial(worktrees));
    RunKeepsInv(t, c, Initial(worktrees), steps);
  }

  /**
   When a commit from a reachable store reports success, the digest it was given
   binds the present revision and list of edits, the worktree was the captured tree,
   and it now is the fold of those edits over that tree.
   */
  lemma CommittedIsTheFold(t: Tools, c: Config, worktrees: map<string, Worktree>, steps: seq<Step>, id: string,
                           digest: Digest, expectedTree: Option<Tree>, env: CommitEnv)
    requires id in Run(t, c, Initial(worktrees), steps).sets
    ensures var st := Run(t, c, Initial(worktrees), steps);
            var cs := st.sets[id];
            var (next, v, outcome) := CommitSpec(cs, Find(st.worktrees, cs.workspace), digest, expectedTree, env);
            outcome == CommitDone(false) ==>
              && Fold(t, Materialize(cs.before), cs.operations).Some?
              && var after := Rebuild(cs.before, Fold(t, Materialize(cs.before), cs.operations).value);
                 && digest == Digest(id, |cs.operations| + 1, cs.before, after, Inputs(cs.operations))
                 && Find(st.worktrees, cs.workspace).Some? && st.worktrees[cs.workspace].files == cs.before
                 && next.status.Committed? && v.Some? && v.value.files == after
  {
    var st := Run(t, c, Initial(worktrees), steps);
    var cs := st.sets[id];
    hide Run, CommitSpec;
    ReachableSetsAreBound(t, c, worktrees, steps, id);
    if cs.workspace in st.worktrees {
      RevisionOk(t, c, worktrees, steps, id);
      CommitReturnsHonestly(t, id, cs, st.worktrees[cs.workspace], digest, expectedTree, env,
                            Fold(t, Materialize(cs.before), cs.operations).value);
    } else {
      NoWorktreeNoCommit(cs, digest, expectedTree, env);
    }
  }

  lemma RevisionOk(t: Tools, c: Config, worktrees: map<string, Worktree>, steps: seq<Step>, id: string)
    requires id in Run(t, c, Initial(worktrees), steps).sets
    ensures LogOk(Run(t, c, Initial(worktrees), steps).sets[id])
  {
    assert StoreInv(t, Initial(worktrees));
    RunKeepsInv(t, c, Initial(worktrees), steps);
  }

  lemma NoWorktreeNoCommit(cs: ChangeSet, digest: Digest, expectedTree: Option<Tree>, env: CommitEnv)
    ensures CommitSpec(cs, None, digest, expectedTree, env).2 != CommitDone(false)
  {
  }

  /** No step changes a set that is committed, rolled back or expired. */
  lemma StepKeepsTerminal(t: Tools, c: Config, st: Store, step: Step, id: string)
    requires id in st.sets && Terminal(st.sets[id].status)
    ensures id in Next(t, c, st, step).sets && Next(t, c, st, step).sets[id] == st.sets[id]
  {
    hide Effect;
    if !step.Begin? && !step.OutsideEdit? && step.id == id {
      EffectKeepsClosed(t, c, st.sets[id], Find(st.worktrees, st.sets[id].workspace), step);
    }
  }
}
