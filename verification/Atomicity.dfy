/**
 What a commit and its recovery promise together: the theorems over every
 environment, with the exact conditions under which they hold.
 */
module Atomicity {
  import opened Common
  import opened Paths
  import opened Trees
  import opened Restore
  import opened Settling
  import opened ChangeSets
  import opened Commits

  /** The facts about a set that is ready to be committed: manifest and after tree of d, and a worktree as captured. */
  ghost predicate Ready(cs: ChangeSet, w: Worktree, d: Directory) {
    CommitContext(cs, w, d) && WellFormed(w) && cs.status.Validated? && cs.digest.Some? && cs.after.Some?
  }

  lemma ReadyLists(cs: ChangeSet, w: Worktree, d: Directory)
    requires CommitContext(cs, w, d) && WellFormed(w)
    ensures Lists(w, cs.after.value, PathsOf(cs.rows))
  {
    ManifestCovers(cs.before, d, PathsOf(cs.rows), w.dirs);
  }

  lemma ConfineDrifts(leaves: Worktree, w: Worktree, paths: seq<string>)
    requires NoSpecial(w, paths)
    ensures Drift(Confine(leaves, w, paths), w, paths, {})
  {
  }

  // --------------------------------------------------------- commits that return

  /** git apply did all that was validated, and the last journal write went through. */
  ghost predicate Applied(cs: ChangeSet, w: Worktree, env: CommitEnv) {
    && cs.after.Some? && env.git.checks && env.git.succeeds && env.lastJournalWritten
    && Confine(env.git.leaves, w, PathsOf(cs.rows)).files == cs.after.value
  }

  /**
   A commit that is not interrupted, for every manifest and every apply: it ends
   committed over the after tree exactly when the apply did all that was validated;
   otherwise it ends rolled back over the captured tree exactly when no listed path
   is denied or was left a directory, and else the row needs recovery.
   */
  lemma UninterruptedCommit(cs: ChangeSet, w: Worktree, d: Directory, expectedTree: Option<Tree>, env: CommitEnv)
    requires Ready(cs, w, d) && (expectedTree.Some? ==> expectedTree.value == cs.before)
    requires env.crash.NoCrash? && WellFormed(Undone(cs, w, env))
    ensures var (next, v, outcome) := CommitSpec(cs, Some(w), cs.digest.value, expectedTree, env);
            var clear := forall p :: p in PathsOf(cs.rows) ==> p !in Undone(cs, w, env).dirs && !env.denied(p);
            && v.Some?
            && (next.status.Committed? <==> Applied(cs, w, env))
            && (next.status.RolledBack? <==> !Applied(cs, w, env) && clear)
            && (next.status.RecoveryNeeded? <==> !Applied(cs, w, env) && !clear)
            && (next.status.Committed? ==> v.value.files == cs.after.value)
            && (next.status.RolledBack? ==> v.value.files == cs.before)
  {
    hide Lists, Confine, SnapshotOf, RestoreAll, CommitSpec, PathsOf, Setting, Drift, WellFormed;
    var paths := PathsOf(cs.rows);
    ReadyLists(cs, w, d);
    ListsSetting(w, cs.after.value, paths);
    ConfineDrifts(env.git.leaves, w, paths);
    NoDrift(w, paths);
    var undone := Undone(cs, w, env);
    WellFormedApart(undone);
    RestoreExact(undone, w, paths, env.denied, env.temps);
    NoCrashShape(cs, w, expectedTree, env);
  }

  /** A commit without a crash either keeps what it applied or undoes it. */
  lemma NoCrashShape(cs: ChangeSet, w: Worktree, expectedTree: Option<Tree>, env: CommitEnv)
    requires cs.status.Validated? && cs.digest.Some? && cs.after.Some? && w.files == cs.before && env.crash.NoCrash?
    requires expectedTree.Some? ==> expectedTree.value == cs.before
    ensures var (next, v, outcome) := CommitSpec(cs, Some(w), cs.digest.value, expectedTree, env);
            var r := RestoreAll(Undone(cs, w, env), env.denied, SnapshotOf(w, PathsOf(cs.rows)), env.temps);
            && v.Some?
            && (Applied(cs, w, env) ==> next.status.Committed? && v.value.files == cs.after.value)
            && (!Applied(cs, w, env) ==>
                  && v.value == r.w
                  && next.status == if r.Done? && r.w.files == cs.before then RolledBack else RecoveryNeeded)
  {
    hide Confine, SnapshotOf, RestoreAll, CrashState, PathsOf;
  }

  lemma ListsSetting(w: Worktree, after: Tree, paths: seq<string>)
    requires Lists(w, after, paths)
    ensures Setting(w, paths, {}) && NoSpecial(w, paths)
  {
  }

  lemma WellFormedApart(w: Worktree)
    requires WellFormed(w)
    ensures w.files.Keys !! w.dirs
  {
  }

  // ---------------------------------------------------------- commits that crash

  /** What a commit of a single path that was a directory leaves: at most that path differs, and no copy. */
  lemma OnePathLeft(cs: ChangeSet, w: Worktree, digest: Digest, expectedTree: Option<Tree>, env: CommitEnv, p: string)
    requires cs.status.Validated? && CommitSpec(cs, Some(w), digest, expectedTree, env).0.status.Committing?
    requires PathsOf(cs.rows) == [p] && p !in w.files
    ensures var (next, v, outcome) := CommitSpec(cs, Some(w), digest, expectedTree, env);
            && outcome.CommitCrashed? && next.rollback == Some(SnapshotOf(w, [p])) && next.after == cs.after && v.Some?
            && Drift(v.value, w, [p], {}) && !UndoLeavesTemporary(cs, w, env)
  {
    var undone, s := Undone(cs, w, env), SnapshotOf(w, [p]);
    assert s.rows == [RollbackRow(p, None)];
    ConfineDrifts(env.git.leaves, w, [p]);
    NoDrift(w, [p]);
    hide CommitSpec, PathsOf, Confine;
    CommittingShape(cs, w, digest, expectedTree, env);
    OnePathRows(undone, w, env.denied, s, env.temps, p);
  }

  lemma OnePathRows(v: Worktree, w: Worktree, denied: string -> bool, s: Snapshot, temps: nat -> string, p: string)
    requires Drift(v, w, [p], {}) && s.rows == [RollbackRow(p, None)]
    ensures forall n :: 0 <= n <= 1 ==> Drift(RestoreUpTo(v, denied, s, temps, n).w, w, [p], {})
    ensures !Copyable(v, denied, s.copies, s.rows[0])
    ensures RestoreUpTo(v, denied, s, temps, 0) == Done(v)
  {
    assert RestoreUpTo(v, denied, s, temps, 1) == RestoreRow(v, denied, s.copies, s.rows[0], temps(0));
  }

  lemma SettleableUnblocked(cs: ChangeSet, w: Worktree, denied: string -> bool)
    requires WellFormed(w) && Settleable(w, PathsOf(cs.rows), denied)
    ensures Restorable(cs, w, denied) || (|PathsOf(cs.rows)| == 1 && PathsOf(cs.rows)[0] in w.dirs)
  {
    ShortIsFlat(PathsOf(cs.rows));
  }

  /**
   Crash atomicity.  Wherever a commit dies while its row is `committing`, whatever
   git apply had written to the listed paths, and however often recovery itself
   dies, reconciliation ends in (committed, after tree) or (rolled back, before
   tree) - exactly when no crash fell between the temporary copy of a file and the
   rename that puts it in place.  A copy left behind makes the row need recovery,
   with every captured file back.  A row that is still `validated` was not touched.
   */
  lemma CrashAtomicity(cs: ChangeSet, w: Worktree, d: Directory, digest: Digest, expectedTree: Option<Tree>,
                       env: CommitEnv, temps: nat -> string, crashes: seq<Crash>)
    requires CommitContext(cs, w, d) && WellFormed(w) && Settleable(w, PathsOf(cs.rows), env.denied)
    requires cs.status.Validated? && EnvFresh(cs, w, env, crashes)
    ensures var (next, v, outcome) := CommitSpec(cs, Some(w), digest, expectedTree, env);
            && v.Some?
            && (next.status.Validated? ==> v.value == w)
            && (next.status.Committing? ==>
                  && outcome.CommitCrashed? && next.rollback.Some? && next.after == cs.after
                  && var s := next.rollback.value;
                     var (verdict, u) := Settle(v.value, cs.before, cs.after.value, env.denied, s, temps, crashes);
                     var dirty := UndoLeavesTemporary(cs, w, env)
                                  || SomeLeftover(v.value, cs.before, cs.after.value, env.denied, s, temps, crashes);
                     && (!dirty ==> SettledCleanly(verdict, u, cs.before, cs.after.value))
                     && (dirty ==> verdict == ToRecovery && forall p :: p in cs.before ==>
                         Get(u.files, p) == Get(cs.before, p)))
  {
    var paths := PathsOf(cs.rows);
    hide CommitSpec, SettledCleanly, Drift, Settle, SomeLeftover, UndoLeavesTemporary;
    SettleableUnblocked(cs, w, env.denied);
    ValidatedUntouched(cs, w, digest, expectedTree, env);
    if Restorable(cs, w, env.denied) {
      UnblockedAtomicity(cs, w, d, digest, expectedTree, env, temps, crashes);
    } else {
      var p := paths[0];
      assert paths == [p] && p in paths;
      var (next, v, outcome) := CommitSpec(cs, Some(w), digest, expectedTree, env);
      if next.status.Committing? {
        OnePathLeft(cs, w, digest, expectedTree, env, p);
        OnePathSettles(v.value, w, cs.after.value, p, env.denied, temps, crashes);
      }
    }
  }

  // ------------------------------------------------- exactly when it always holds

  /** The apply leaves a worktree that a file system can hold, and no crash falls between a copy and its rename. */
  ghost predicate Orderly(cs: ChangeSet, w: Worktree, env: CommitEnv, crashes: seq<Crash>) {
    && WellFormed(Confine(env.git.leaves, w, PathsOf(cs.rows)))
    && (env.crash.WhileUndoing? ==> env.crash.at.leftover.None?)
    && Tidy(crashes)
  }

  /** If the commit dies with its row `committing`, recovery ends in one of the two trees. */
  ghost predicate CommitSettles(cs: ChangeSet, w: Worktree, env: CommitEnv, temps: nat -> string, crashes: seq<Crash>)
    requires cs.digest.Some? && cs.after.Some?
  {
    var (next, v, outcome) := CommitSpec(cs, Some(w), cs.digest.value, None, env);
    next.status.Committing? ==>
      && v.Some? && next.rollback.Some?
      && var (verdict, u) := Settle(v.value, cs.before, cs.after.value, env.denied, next.rollback.value, temps,
                                    crashes);
         SettledCleanly(verdict, u, cs.before, cs.after.value)
  }

  ghost predicate AlwaysAtomic(cs: ChangeSet, w: Worktree, denied: string -> bool)
    requires cs.digest.Some? && cs.after.Some?
  {
    forall env: CommitEnv, temps, crashes :: env.denied == denied && Orderly(cs, w, env, crashes) ==>
      CommitSettles(cs, w, env, temps, crashes)
  }

  lemma OrderlyLeavesNothing(cs: ChangeSet, w: Worktree, d: Directory, env: CommitEnv, temps: nat -> string,
                             crashes: seq<Crash>)
    requires Ready(cs, w, d) && Settleable(w, PathsOf(cs.rows), env.denied) && Orderly(cs, w, env, crashes)
    ensures CommitSettles(cs, w, env, temps, crashes)
  {
    hide CommitSpec, SettledCleanly, Settle, Settleable, CommitContext, WellFormed, Confine;
    CrashAtomicity(cs, w, d, cs.digest.value, None, env, temps, crashes);
    var (next, v, outcome) := CommitSpec(cs, Some(w), cs.digest.value, None, env);
    if next.status.Committing? {
      TidyLeavesNothing(v.value, cs.before, cs.after.value, env.denied, next.rollback.value, temps, crashes);
    }
  }

  lemma ConfinePartial(v: Worktree, w: Worktree, paths: seq<string>)
    requires Partial(v, w, paths)
    ensures Confine(v, w, paths) == v
  {
    var c := Confine(v, w, paths);
    forall p ensures Get(c.files, p) == Get(v.files, p) {
      if p !in paths { assert Get(v.files, p) == Get(w.files, p); }
    }
    GetExtensional(c.files, v.files);
  }

  /** An environment in which the apply is cut at a worktree of one's choice. */
  function CutAt(v: Worktree, denied: string -> bool, temps: nat -> string): CommitEnv {
    CommitEnv(ApplyRun(true, true, v), true, WhileApplying, denied, temps)
  }

  lemma CutAtLeaves(cs: ChangeSet, w: Worktree, d: Directory, v: Worktree, denied: string -> bool, temps: nat -> string)
    requires Ready(cs, w, d) && Partial(v, w, PathsOf(cs.rows))
    ensures var (next, u, outcome) := CommitSpec(cs, Some(w), cs.digest.value, None, CutAt(v, denied, temps));
            && next.status.Committing? && u == Some(v) && next.rollback == Some(SnapshotOf(w, PathsOf(cs.rows)))
            && Orderly(cs, w, CutAt(v, denied, temps), [])
  {
    hide Confine, SnapshotOf, PathsOf, CommitSpec, Partial;
    ConfinePartial(v, w, PathsOf(cs.rows));
    PartialWellFormed(v, w, PathsOf(cs.rows));
    CutAtShape(cs, w, CutAt(v, denied, temps));
  }

  lemma PartialWellFormed(v: Worktree, w: Worktree, paths: seq<string>)
    requires Partial(v, w, paths)
    ensures WellFormed(v)
  {
  }

  lemma CutAtShape(cs: ChangeSet, w: Worktree, env: CommitEnv)
    requires cs.status.Validated? && cs.digest.Some? && cs.after.Some? && w.files == cs.before
    requires env.git.checks && env.crash.WhileApplying?
    ensures var (next, u, outcome) := CommitSpec(cs, Some(w), cs.digest.value, None, env);
            && next.status.Committing? && u == Some(Confine(env.git.leaves, w, PathsOf(cs.rows)))
            && next.rollback == Some(SnapshotOf(w, PathsOf(cs.rows)))
  {
    hide Confine, SnapshotOf, PathsOf;
  }

  lemma StuckCommit(cs: ChangeSet, w: Worktree, d: Directory, denied: string -> bool, temps: nat -> string)
      returns (env: CommitEnv)
    requires Ready(cs, w, d) && Proper(cs.after.value) && !Settleable(w, PathsOf(cs.rows), denied)
    ensures env.denied == denied && env.crash.WhileApplying? && Orderly(cs, w, env, [])
    ensures var (next, v, outcome) := CommitSpec(cs, Some(w), cs.digest.value, None, env);
            && next.status.Committing? && v.Some? && next.rollback.Some?
            && Settle(v.value, cs.before, cs.after.value, denied, next.rollback.value, temps, []).0 == ToRecovery
  {
    var paths := PathsOf(cs.rows);
    ReadyLists(cs, w, d);
    hide CommitSpec, Settle, Orderly, Settleable;
    var v := NotSettleableSticks(w, cs.after.value, paths, denied);
    StuckNeedsRecovery(v, w, cs.after.value, paths, denied, temps);
    env := CutAt(v, denied, temps);
    CutAtLeaves(cs, w, d, v, denied, temps);
  }

  /**
   Exactly when a commit is atomic under every crash: for all environments and all
   interrupted passes without a copy left behind, recovery ends in one of the two
   trees if and only if no listed path is denied and, unless there is only one, none
   lies inside another and none is a directory of the captured worktree - in other
   words, the change set does not turn a file into a directory or the reverse.
   */
  lemma AtomicExactly(cs: ChangeSet, w: Worktree, d: Directory, denied: string -> bool)
    requires Ready(cs, w, d) && Proper(cs.after.value)
    ensures AlwaysAtomic(cs, w, denied) <==> Settleable(w, PathsOf(cs.rows), denied)
  {
    hide CommitSettles, Orderly, Settleable, CommitContext, Proper;
    if Settleable(w, PathsOf(cs.rows), denied) {
      forall env: CommitEnv, temps, crashes | env.denied == denied && Orderly(cs, w, env, crashes)
        ensures CommitSettles(cs, w, env, temps, crashes)
      {
        OrderlyLeavesNothing(cs, w, d, env, temps, crashes);
      }
    } else {
      var temps := (n: nat) => "";
      var env := StuckCommit(cs, w, d, denied, temps);
      NotSettled(cs, w, env, temps);
    }
  }

  lemma NotSettled(cs: ChangeSet, w: Worktree, env: CommitEnv, temps: nat -> string)
    requires cs.digest.Some? && cs.after.Some?
    requires var (next, v, outcome) := CommitSpec(cs, Some(w), cs.digest.value, None, env);
             && next.status.Committing? && v.Some? && next.rollback.Some?
             && Settle(v.value, cs.before, cs.after.value, env.denied, next.rollback.value, temps, []).0 == ToRecovery
    ensures !CommitSettles(cs, w, env, temps, [])
  {
    hide CommitSpec, Settle;
  }

  // --------------------------------------------- a failure after the row is committed

  /** The row is `committed`, and the write that should have been the last one failed. */
  ghost predicate TooLate(cs: ChangeSet, w: Worktree, env: CommitEnv) {
    && cs.after.Some? && env.git.checks && env.git.succeeds && !env.lastJournalWritten
    && Confine(env.git.leaves, w, PathsOf(cs.rows)).files == cs.after.value
    && (env.crash.WhileUndoing? || env.crash.AfterUndo?)
  }

  /** What an undo cut at this point has done to the tree: nothing at all. */
  predicate Untouched(w: Worktree, denied: string -> bool, s: Snapshot, temps: nat -> string, c: Crash) {
    && !LeavesTemporary(w, denied, s, temps, c)
    && (RowsDone(s, c) == 0
        || (var first := RestoreRow(w, denied, s.copies, s.rows[0], temps(0));
            first.Broken? && first.w.files == w.files))
  }

  /** The names that the undo gives its temporary copies are fresh. */
  ghost predicate NamesFresh(cs: ChangeSet, w: Worktree, env: CommitEnv) {
    var paths := PathsOf(cs.rows);
    && (forall n: nat :: FreshName(env.temps(n), w, paths))
    && (env.crash.WhileUndoing? && env.crash.at.leftover.Some? ==> FreshName(env.crash.at.leftover.value, w, paths))
  }

  /**
   The last journal write sits inside the handled block although the row is already
   `committed`.  When it fails and the undo it starts is cut anywhere, the committed
   row stands over the tree it claims exactly if no row was done and no copy left,
   and no reconcile pass looks at it again.
   */
  lemma LateJournalFailure(cs: ChangeSet, w: Worktree, d: Directory, env: CommitEnv, denied: string -> bool,
                           temps: nat -> string)
    requires Ready(cs, w, d) && cs.rows != [] && TooLate(cs, w, env) && NamesFresh(cs, w, env)
    ensures var (next, v, outcome) := CommitSpec(cs, Some(w), cs.digest.value, None, env);
            var applied := Confine(env.git.leaves, w, PathsOf(cs.rows));
            outcome.CommitCrashed? ==>
              && next.status.Committed? && v.Some?
              && (v.value.files == cs.after.value <==>
                  env.crash.WhileUndoing?
                  && Untouched(applied, env.denied, SnapshotOf(w, PathsOf(cs.rows)), env.temps, env.crash.at))
              && ReconcileSpec(next, v, denied, temps) == (next, v)
  {
    var paths := PathsOf(cs.rows);
    var applied := Confine(env.git.leaves, w, paths);
    ReadyLists(cs, w, d);
    ConfineDrifts(env.git.leaves, w, paths);
    hide Confine, CommitSpec, Drift, Untouched, PathsOf, SnapshotOf, CrashState, RestoreAll;
    LateShape(cs, w, env);
    if env.crash.WhileUndoing? {
      PartUndone(applied, w, cs.after.value, paths, env.denied, env.temps, env.crash.at);
    } else {
      assert paths[0] in paths;
    }
  }

  lemma LateShape(cs: ChangeSet, w: Worktree, env: CommitEnv)
    requires cs.status.Validated? && cs.digest.Some? && w.files == cs.before && TooLate(cs, w, env)
    ensures var (next, v, outcome) := CommitSpec(cs, Some(w), cs.digest.value, None, env);
            var paths := PathsOf(cs.rows);
            outcome.CommitCrashed? ==>
              && next.status.Committed? && v.Some?
              && (env.crash.WhileUndoing? ==>
                    v.value == CrashState(Confine(env.git.leaves, w, paths), env.denied, SnapshotOf(w, paths),
                                          env.temps, env.crash.at).w)
              && (env.crash.AfterUndo? ==> v.value.files == cs.before)
  {
    hide Confine, SnapshotOf, CrashState, RestoreAll, PathsOf;
  }

  /** A file that is new to the after tree makes another one. */
  lemma NewFile(w: Worktree, w0: Worktree, after: Tree, paths: seq<string>, name: string)
    requires Lists(w0, after, paths) && FreshName(name, w0, paths) && name in w.files
    ensures w.files != after
  {
    assert Get(w0.files, name) == Get(after, name);
  }

  /** A row of another path leaves this one alone. */
  lemma OtherRowKeeps(v: Worktree, denied: string -> bool, copies: Directory, row: RollbackRow, temp: string, p: string)
    requires p != row.path && p != temp
    ensures Get(RestoreRow(v, denied, copies, row, temp).w.files, p) == Get(v.files, p)
  {
  }

  /** Once the first row is done, its path stays as captured. */
  lemma {:induction false} FirstRowStays(w: Worktree, w0: Worktree, paths: seq<string>, denied: string -> bool,
                                         temps: nat -> string, n: nat)
    requires NoSpecial(w0, paths) && StrictlySorted(paths) && 1 <= n <= |paths|
    requires forall i: nat :: FreshName(temps(i), w0, paths)
    ensures var s := SnapshotOf(w0, paths);
            var first := RestoreRow(w, denied, s.copies, s.rows[0], temps(0));
            var r := RestoreUpTo(w, denied, s, temps, n);
            if first.Done? then Get(r.w.files, paths[0]) == Get(w0.files, paths[0]) else r == first
  {
    var s := SnapshotOf(w0, paths);
    assert paths[0] in paths;
    if n == 1 {
      assert RestoreUpTo(w, denied, s, temps, 0) == Done(w);
      SnapshotRow(w0, paths, 0);
    } else {
      hide SnapshotOf, RestoreRow, NoSpecial, StrictlySorted, Get;
      FirstRowStays(w, w0, paths, denied, temps, n - 1);
      SnapshotRow(w0, paths, n - 1);
      SortedDistinct(paths, 0, n - 1);
      assert FreshName(temps(n - 1), w0, paths);
      var v := RestoreUpTo(w, denied, s, temps, n - 1).w;
      OtherRowKeeps(v, denied, s.copies, s.rows[n - 1], temps(n - 1), paths[0]);
    }
  }

  lemma PartUndone(applied: Worktree, w: Worktree, after: Tree, paths: seq<string>, denied: string -> bool,
                   temps: nat -> string, c: Crash)
    requires Lists(w, after, paths) && applied.files == after && paths != []
    requires forall i: nat :: FreshName(temps(i), w, paths)
    requires c.leftover.Some? ==> FreshName(c.leftover.value, w, paths)
    ensures var s := SnapshotOf(w, paths);
            CrashState(applied, denied, s, temps, c).w.files == after <==> Untouched(applied, denied, s, temps, c)
  {
    var s := SnapshotOf(w, paths);
    var n := RowsDone(s, c);
    assert paths[0] in paths;
    var state := CrashState(applied, denied, s, temps, c).w;
    if LeavesTemporary(applied, denied, s, temps, c) {
      NewFile(state, w, after, paths, c.leftover.value);
    } else if n > 0 {
      FirstRowStays(applied, w, paths, denied, temps, n);
    }
  }
}
