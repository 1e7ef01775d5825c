/**
 Committing a validated change set to the worktree, and reconciling commits that a
 crash interrupted.

 The environment decides what git apply does to the listed paths and where the
 process dies; the theorems hold for every choice.
 */
module Commits {
  import opened Common
  import opened Paths
  import opened Trees
  import opened Restore
  import opened ChangeSets

  /** One run of git apply: the dry run, the exit code, and the worktree it leaves. */
  datatype ApplyRun = ApplyRun(checks: bool, succeeds: bool, leaves: Worktree)

  datatype CommitCrash =
    | NoCrash
    | BeforeIntent             // the snapshot is written, the row is not yet `committing`
    | BeforeApply
    | WhileApplying
    | AfterApply
    | AfterRow                 // the row is `committed`
    | WhileUndoing(at: Crash)
    | AfterUndo                // restored, the row not yet updated

  datatype CommitEnv = CommitEnv(git: ApplyRun, lastJournalWritten: bool, crash: CommitCrash,
                                 denied: string -> bool, temps: nat -> string)

  datatype CommitOutcome =
    | CommitDone(replay: bool)
    | CommitRefused(error: Error)
    | CommitUndone
    | CommitUnproven
    | CommitCrashed

  /** git apply writes only the listed paths, as regular files, and the directories they need. */
  function Confine(leaves: Worktree, w: Worktree, paths: seq<string>): Worktree {
    Worktree(
      map p | p in w.files.Keys + leaves.files.Keys
              && (if p in paths then p in leaves.files && leaves.files[p].Regular? else p in w.files)
           :: if p in paths then leaves.files[p] else w.files[p],
      set d | d in leaves.dirs && (d in w.dirs || exists i :: 0 <= i < |paths| && Inside(d, paths[i])))
  }

  /** The exception handler: restore, compare, and record what was achieved. */
  function Undo(cs: ChangeSet, w: Worktree, s: Snapshot, env: CommitEnv): (ChangeSet, Worktree, CommitOutcome) {
    if env.crash.WhileUndoing? then (cs, CrashState(w, env.denied, s, env.temps, env.crash.at).w, CommitCrashed)
    else
      match RestoreAll(w, env.denied, s, env.temps)
      case Broken(v) => (cs.(status := RecoveryNeeded), v, CommitUnproven)
      case Done(v) =>
        if v.files != cs.before then (cs.(status := RecoveryNeeded), v, CommitUnproven)
        else if env.crash.AfterUndo? then (cs, v, CommitCrashed)
        else (cs.(status := RolledBack), v, CommitUndone)
  }

  /** From the recorded intent on. */
  function Apply(cs: ChangeSet, w: Worktree, after: Tree, s: Snapshot, env: CommitEnv)
    : (ChangeSet, Worktree, CommitOutcome)
  {
    var intent := cs.(status := Committing, rollback := Some(s));
    var applied := Confine(env.git.leaves, w, PathsOf(cs.rows));
    if env.crash.BeforeApply? then (intent, w, CommitCrashed)
    else if !env.git.checks then Undo(intent, w, s, env)
    else if env.crash.WhileApplying? then (intent, applied, CommitCrashed)
    else if !env.git.succeeds || applied.files != after then Undo(intent, applied, s, env)
    else if env.crash.AfterApply? then (intent, applied, CommitCrashed)
    else
      var committed := intent.(status := Committed);
      if env.crash.AfterRow? then (committed, applied, CommitCrashed)
      else if env.lastJournalWritten then (committed, applied, CommitDone(false))
      else Undo(committed, applied, s, env)
  }

  function CommitSpec(cs: ChangeSet, w: Option<Worktree>, digest: Digest, expectedTree: Option<Tree>, env: CommitEnv)
    : (ChangeSet, Option<Worktree>, CommitOutcome)
  {
    if cs.status.Committed? then
      (cs, w, if cs.digest == Some(digest) then CommitDone(true) else CommitRefused(IdempotencyConflict))
    else if !cs.status.Validated? then
      (cs, w, CommitRefused(if cs.status.Open? then NotValidated else InvalidState))
    else if cs.digest != Some(digest) || cs.after.None? then (cs, w, CommitRefused(NotValidated))
    else if expectedTree.Some? && expectedTree.value != cs.before then (cs, w, CommitRefused(Conflict))
    else if w.None? then (cs, w, CommitRefused(WorkspaceMissing))
    else if w.value.files != cs.before then (cs, w, CommitRefused(Conflict))
    else
      var s := SnapshotOf(w.value, PathsOf(cs.rows));
      if env.crash.BeforeIntent? then (cs.(rollback := Some(s)), w, CommitCrashed)
      else
        var (next, v, outcome) := Apply(cs, w.value, cs.after.value, s, env);
        (next, Some(v), outcome)
  }

  function StatusOf(v: Verdict): Status {
    match v
    case ToCommitted => Committed
    case ToRolledBack => RolledBack
    case ToRecovery => RecoveryNeeded
  }

  /** One complete pass over a row that is `committing`. */
  function ReconcileSpec(cs: ChangeSet, w: Option<Worktree>, denied: string -> bool, temps: nat -> string)
    : (ChangeSet, Option<Worktree>)
  {
    if !cs.status.Committing? then (cs, w)
    else if w.None? || cs.after.None? || cs.rollback.None? then (cs.(status := RecoveryNeeded), w)
    else
      var (verdict, v) := Reconciled(w.value, cs.before, cs.after.value, denied, cs.rollback.value, temps);
      (cs.(status := StatusOf(verdict)), Some(v))
  }

  // -------------------------------------------------------------- the manifest

  /** The manifest lists every path at which the two trees differ, and no special entry. */
  lemma ManifestCovers(base: Tree, d: Directory, paths: seq<string>, dirs: set<string>)
    requires paths == PathsOf(ManifestOf(base, Rebuild(base, d)))
    ensures StrictlySorted(paths)
    ensures SameOutside(base, Rebuild(base, d), paths)
    ensures NoSpecial(Worktree(base, dirs), paths)
    ensures forall p :: p in paths ==> Get(base, p) != Get(Rebuild(base, d), p)
  {
    var after := Rebuild(base, d);
    var sorted := Sorted(Changed(base, after));
    assert paths == sorted;
    RebuildKeepsSpecial(base, d);
    ChangedWhenDifferent(base, after);
    forall p ensures p !in paths ==> Get(base, p) == Get(after, p)
             ensures p in paths ==> Get(base, p) != Get(after, p) && (p in base ==> base[p].Regular?)
    {
      RegularOrSpecial(base, p);
      RegularOrSpecial(after, p);
    }
  }

  lemma RegularOrSpecial(t: Tree, p: string)
    ensures Get(t, p) == if p in SpecialEntries(t) then Some(SpecialEntries(t)[p])
                         else if Lookup(Materialize(t), p).Some? then Some(Regular(Lookup(Materialize(t), p).value))
                         else None
    ensures p in SpecialEntries(t) ==> Lookup(Materialize(t), p).None?
  {
  }

  lemma ConfinedDrift(leaves: Worktree, w: Worktree, paths: seq<string>, denied: string -> bool)
    requires NoSpecial(w, paths) && Flat(paths) && NoneBlocked(w, paths, denied)
    ensures Drift(Confine(leaves, w, paths), w, paths, {}) && NoneBlocked(Confine(leaves, w, paths), paths, denied)
  {
    var v := Confine(leaves, w, paths);
    forall p | p in paths ensures p !in v.dirs {
      forall i | 0 <= i < |paths| ensures !Inside(p, paths[i]) {
        assert paths[i] in paths;
      }
    }
  }

  // ---------------------------------------------------------------- outcomes

  /**
   What a commit that returns may claim, whatever git apply did: committed means
   the worktree is the tree the recorded edits mean; undone means it is the captured
   tree; refused means nothing changed.
   */
  lemma CommitReturnsHonestly(t: Tools, id: string, cs: ChangeSet, w: Worktree, digest: Digest,
                              expectedTree: Option<Tree>, env: CommitEnv, d: Directory)
    requires LogOk(cs) && Means(t, cs, d) && (cs.status.Validated? || cs.status.Committed? ==> BoundTo(id, cs, d))
    ensures var (next, v, outcome) := CommitSpec(cs, Some(w), digest, expectedTree, env);
            && (outcome == CommitDone(false) ==>
                  && next.status.Committed? && v.Some? && v.value.files == Rebuild(cs.before, d)
                  && digest == DigestOf(id, cs, Rebuild(cs.before, d)) && w.files == cs.before)
            && (outcome.CommitUndone? ==> next.status.RolledBack? && v.Some? && v.value.files == cs.before)
            && (outcome.CommitRefused? || outcome == CommitDone(true) ==> next == cs && v == Some(w))
            && (outcome.CommitUnproven? ==> next.status.RecoveryNeeded?)
            && next.operations == cs.operations && next.before == cs.before
  {
    hide Means, Fold, LogOk, Confine, SnapshotOf, RestoreAll, CrashState, PathsOf, Rebuild;
  }

  /** The setting in which restores are exact: a captured worktree and a manifest without nesting or blocked paths. */
  ghost predicate Restorable(cs: ChangeSet, w: Worktree, denied: string -> bool) {
    var paths := PathsOf(cs.rows);
    WellFormed(w) && Flat(paths) && NoneBlocked(w, paths, denied)
  }

  ghost predicate EnvFresh(cs: ChangeSet, w: Worktree, env: CommitEnv, crashes: seq<Crash>) {
    var paths := PathsOf(cs.rows);
    && (env.crash.WhileUndoing? && env.crash.at.leftover.Some? ==> FreshName(env.crash.at.leftover.value, w, paths))
    && (forall c :: c in crashes && c.leftover.Some? ==> FreshName(c.leftover.value, w, paths))
  }

  ghost predicate CommitContext(cs: ChangeSet, w: Worktree, d: Directory) {
    && cs.rows == ManifestOf(cs.before, Rebuild(cs.before, d))
    && cs.after == Some(Rebuild(cs.before, d))
    && w.files == cs.before
  }

  lemma ContextSetting(cs: ChangeSet, w: Worktree, d: Directory, denied: string -> bool)
    requires CommitContext(cs, w, d) && Restorable(cs, w, denied)
    ensures Setting(w, PathsOf(cs.rows), {}) && SameOutside(w.files, cs.after.value, PathsOf(cs.rows))
    ensures forall p :: p in PathsOf(cs.rows) ==> Get(w.files, p) != Get(cs.after.value, p)
  {
    ManifestCovers(cs.before, d, PathsOf(cs.rows), w.dirs);
  }

  /** The undo of the commit itself was cut between a temporary copy and its rename. */
  ghost predicate UndoLeavesTemporary(cs: ChangeSet, w: Worktree, env: CommitEnv) {
    var paths := PathsOf(cs.rows);
    && env.crash.WhileUndoing?
    && LeavesTemporary(Undone(cs, w, env), env.denied, SnapshotOf(w, paths), env.temps, env.crash.at)
  }

  /**
   What is left of a commit that dies anywhere, and of any number of crashes during
   recovery, when no listed path can block a restore; Atomicity.dfy has the theorem.
   */
  lemma UnblockedAtomicity(cs: ChangeSet, w: Worktree, d: Directory, digest: Digest, expectedTree: Option<Tree>,
                       env: CommitEnv, temps: nat -> string, crashes: seq<Crash>)
    requires CommitContext(cs, w, d) && Restorable(cs, w, env.denied) && EnvFresh(cs, w, env, crashes)
    requires cs.status.Validated?
    ensures var (next, v, outcome) := CommitSpec(cs, Some(w), digest, expectedTree, env);
            && v.Some?
            && (next.status.Validated? ==> v.value == w)
            && (next.status.Committing? ==>
                  && outcome.CommitCrashed? && next.rollback.Some? && next.after == cs.after
                  && var s := next.rollback.value;
                     var (verdict, u) := Settle(v.value, cs.before, cs.after.value, env.denied, s, temps, crashes);
                     var dirty := UndoLeavesTemporary(cs, w, env)
                                  || SomeLeftover(v.value, cs.before, cs.after.value, env.denied, s, temps, crashes);
                     && (!dirty ==> SettledCleanly(verdict, u, cs.before, cs.after.value))
                     && (dirty ==> verdict == ToRecovery && forall p :: p in cs.before ==>
                         Get(u.files, p) == Get(cs.before, p)))
  {
    hide RestoreAll, Restorable, EnvFresh, CommitSpec, SettledCleanly, Setting, Drift, NoneBlocked, Flat;
    var (next, v, outcome) := CommitSpec(cs, Some(w), digest, expectedTree, env);
    ValidatedUntouched(cs, w, digest, expectedTree, env);
    if next.status.Committing? {
      ContextSetting(cs, w, d, env.denied);
      var junk := CommittingLeft(cs, w, d, digest, expectedTree, env, crashes);
      FreshCrashes(cs, w, env, crashes);
      FlatOf(cs, w, env.denied);
      SettleExact(v.value, w, cs.after.value, PathsOf(cs.rows), junk, env.denied, temps, crashes);
    }
  }

  lemma ValidatedUntouched(cs: ChangeSet, w: Worktree, digest: Digest, expectedTree: Option<Tree>, env: CommitEnv)
    requires cs.status.Validated?
    ensures var (next, v, outcome) := CommitSpec(cs, Some(w), digest, expectedTree, env);
            v.Some? && (next.status.Validated? ==> v.value == w)
  {
    hide Confine, SnapshotOf, RestoreAll, CrashState, PathsOf;
  }

  /** The worktree the undo starts from. */
  function Undone(cs: ChangeSet, w: Worktree, env: CommitEnv): Worktree {
    if env.git.checks then Confine(env.git.leaves, w, PathsOf(cs.rows)) else w
  }

  /** The four places at which a commit can die with its row `committing`. */
  lemma CommittingShape(cs: ChangeSet, w: Worktree, digest: Digest, expectedTree: Option<Tree>, env: CommitEnv)
    requires cs.status.Validated? && CommitSpec(cs, Some(w), digest, expectedTree, env).0.status.Committing?
    ensures var (next, v, outcome) := CommitSpec(cs, Some(w), digest, expectedTree, env);
            var s := SnapshotOf(w, PathsOf(cs.rows));
            var undone := Undone(cs, w, env);
            var restored := RestoreAll(undone, env.denied, s, env.temps);
            && outcome.CommitCrashed? && next.rollback == Some(s) && next.after == cs.after && v.Some?
            && match env.crash
               case WhileUndoing(at) => v.value == CrashState(undone, env.denied, s, env.temps, at).w
               case AfterUndo => restored.Done? && v.value == restored.w
               case BeforeApply => v.value == w
               case _ => v.value == Confine(env.git.leaves, w, PathsOf(cs.rows))
  {
    hide Confine, SnapshotOf, RestoreAll, CrashState, PathsOf;
  }

  lemma FlatOf(cs: ChangeSet, w: Worktree, denied: string -> bool)
    requires Restorable(cs, w, denied)
    ensures Flat(PathsOf(cs.rows))
  {
  }

  lemma FreshCrashes(cs: ChangeSet, w: Worktree, env: CommitEnv, crashes: seq<Crash>)
    requires EnvFresh(cs, w, env, crashes)
    ensures forall c :: c in crashes && c.leftover.Some? ==> FreshName(c.leftover.value, w, PathsOf(cs.rows))
  {
  }

  /** What a commit leaves when it dies with the row `committing`. */
  lemma CommittingLeft(cs: ChangeSet, w: Worktree, d: Directory, digest: Digest, expectedTree: Option<Tree>,
                       env: CommitEnv, crashes: seq<Crash>) returns (junk: set<string>)
    requires CommitContext(cs, w, d) && Restorable(cs, w, env.denied) && EnvFresh(cs, w, env, crashes)
    requires cs.status.Validated? && CommitSpec(cs, Some(w), digest, expectedTree, env).0.status.Committing?
    ensures var (next, v, outcome) := CommitSpec(cs, Some(w), digest, expectedTree, env);
            var paths := PathsOf(cs.rows);
            && outcome.CommitCrashed? && next.rollback == Some(SnapshotOf(w, paths)) && next.after == cs.after
                && v.Some?
            && Setting(w, paths, junk) && Drift(v.value, w, paths, junk) && NoneBlocked(v.value, paths, env.denied)
            && (junk != {} <==> UndoLeavesTemporary(cs, w, env))
  {
    var paths := PathsOf(cs.rows);
    ContextSetting(cs, w, d, env.denied);
    ConfinedDrift(env.git.leaves, w, paths, env.denied);
    NoDrift(w, paths);
    var undone := Undone(cs, w, env);
    hide CommitSpec, Setting, Drift, NoneBlocked, Confine, RestoreAll, CrashState, LeavesTemporary;
    hide SnapshotOf, FreshName, PathsOf;
    CommittingShape(cs, w, digest, expectedTree, env);
    junk := {};
    if env.crash.WhileUndoing? {
      junk := CrashKeepsDrift(undone, w, paths, {}, env.denied, env.temps, env.crash.at);
    } else if env.crash.AfterUndo? {
      RestoredDrift(undone, w, paths, env);
    }
  }

  lemma NoDrift(w: Worktree, paths: seq<string>)
    requires NoSpecial(w, paths)
    ensures Drift(w, w, paths, {})
  {
  }

  /** A completed restore leaves the listed paths usable for another one. */
  lemma RestoredDrift(v: Worktree, w: Worktree, paths: seq<string>, env: CommitEnv)
    requires Setting(w, paths, {}) && Flat(paths) && Drift(v, w, paths, {}) && NoneBlocked(v, paths, env.denied)
    ensures var r := RestoreAll(v, env.denied, SnapshotOf(w, paths), env.temps);
            r.Done? && Drift(r.w, w, paths, {}) && NoneBlocked(r.w, paths, env.denied)
  {
    RestoreProgress(v, w, paths, {}, env.denied, env.temps, |paths|);
    ProgressKeepsDrift(RestoreAll(v, env.denied, SnapshotOf(w, paths), env.temps).w, v, w, paths, {}, env.denied,
                       |paths|);
  }
}
