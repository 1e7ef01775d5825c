/**
 The change-set store as a program: rows, staging directories and worktrees are
 changed in place, step by step, and every method is proved against the
 specification of its operation.
 */
module ChangeSetStore {
  import opened Common
  import opened Paths
  import opened Trees
  import opened Restore
  import opened ChangeSets
  import opened Commits
  import opened ChangeSetRuns

  /** The counters of the reconcile pass. */
  datatype Counts = Counts(committed: nat, rolledBack: nat, recoveryRequired: nat) {
    function Plus(status: Status): Counts {
      if status == Committed then this.(committed := committed + 1)
      else if status == RolledBack then this.(rolledBack := rolledBack + 1)
      else this.(recoveryRequired := recoveryRequired + 1)
    }

    function Sum(): nat {
      committed + rolledBack + recoveryRequired
    }
  }

  class Store {
    const tools: Tools
    const config: Config
    var sets: map<string, ChangeSet>
    var worktrees: map<string, Worktree>

    /** All that the methods rely on; a stage call that died leaves it intact. */
    ghost predicate Valid()
      reads this
    {
      OneActive(sets)
    }

    constructor (tools: Tools, config: Config, worktrees: map<string, Worktree>)
      ensures Valid() && this.tools == tools && this.config == config
      ensures sets == map[] && this.worktrees == worktrees
    {
      this.tools, this.config := tools, config;
      this.sets, this.worktrees := map[], worktrees;
    }

    method Begin(r: BeginRequest) returns (error: Option<Error>)
      requires Valid()
      modifies this
      ensures Valid()
      ensures (ChangeSetRuns.Store(sets, worktrees), error)
              == BeginSpec(tools, config, ChangeSetRuns.Store(old(sets), old(worktrees)), r)
    {
      if !config.enabled { return Some(Disabled); }
      if r.blankExplanation { return Some(InvalidInput); }
      if r.ws !in worktrees { return Some(WorkspaceMissing); }
      if !r.supported { return Some(InvalidState); }
      var tree := worktrees[r.ws].files;
      var staging := Materialize(tree);
      if tools.size(staging) > config.maxStagingBytes { return Some(LimitExceeded); }
      if r.id in sets { return Some(InvalidState); }
      if HasActive(sets, r.ws) { return Some(AlreadyActive); }
      var begun := ChangeSet(r.ws, Open, 1, tree, None, None, r.now + config.ttl, [], [], Some(staging), None, None);
      BegunApart(sets, r.id, begun);
      sets := sets[r.id := begun];
      return None;
    }

    /** Put the staging directory back as the checkpoint has it. */
    method UndoStaging(id: string, checkpoint: Option<Directory>)
      requires id in sets
      modifies this`sets
      ensures sets == old(sets)[id := old(sets)[id].(staging := checkpoint)]
    {
      sets := sets[id := sets[id].(staging := checkpoint)];
    }

    method Stage(id: string, now: int, opId: string, payload: Payload) returns (outcome: StageOutcome)
      requires Valid()
      modifies this`sets
      ensures Valid()
      ensures id !in old(sets) ==> outcome == StageRefused(NotFound) && sets == old(sets)
      ensures id in old(sets) ==>
                var cs := old(sets)[id];
                var spec := StageSpec(tools, config, cs, cs.workspace in worktrees, now, opId, payload);
                outcome == spec.1 && sets == old(sets)[id := spec.0]
    {
      hide OneActive;
      if id !in sets { return StageRefused(NotFound); }
      var cs := sets[id];
      StageKeepsApart(tools, config, sets, id, cs.workspace in worktrees, now, opId, payload);
      var replay := FindOperation(cs.operations, opId);
      if replay.Some? {
        if replay.value.payload != payload { return StageRefused(IdempotencyConflict); }
        return Replayed(replay.value.result);
      }
      if Expiring(cs, now) {
        sets := sets[id := Expire(cs)];
        return StageRefused(HasExpired);
      }
      if !(cs.status.Open? || cs.status.Validated?) { return StageRefused(InvalidState); }
      if |cs.operations| >= config.maxOperations { return StageRefused(LimitExceeded); }
      if cs.staging.None? { return StageRefused(EditFailed); }
      outcome := StageEdit(id, opId, payload);
    }

    /** The edit itself, with the staging directory put back whenever something raises. */
    method StageEdit(id: string, opId: string, payload: Payload) returns (outcome: StageOutcome)
      requires id in sets && sets[id].staging.Some?
      modifies this`sets
      ensures var cs := old(sets)[id];
              var spec := EditSpec(tools, config, cs, cs.workspace in worktrees, opId, payload);
              outcome == spec.1 && sets == old(sets)[id := spec.0]
    {
      hide ManifestOf, Rebuild, MaxOrdinal;
      var cs := sets[id];
      var checkpoint := cs.staging;
      var applied := tools.apply(cs.staging.value, payload);
      sets := sets[id := cs.(staging := Some(applied.d))];
      var size := tools.size(applied.d);
      if applied.Raised? {
        UndoStaging(id, checkpoint);
        return StageRefused(EditFailed);
      }
      if size > config.maxStagingBytes {
        UndoStaging(id, checkpoint);
        return StageRefused(LimitExceeded);
      }
      if cs.workspace !in worktrees {
        UndoStaging(id, checkpoint);
        return StageRefused(WorkspaceMissing);
      }
      var files := Manifest(cs.before, Rebuild(cs.before, applied.d));
      if |files| > config.maxChangedFiles {
        UndoStaging(id, checkpoint);
        return StageRefused(LimitExceeded);
      }
      var ordinal := MaxOrdinal(cs.operations) + 1;
      var result := StageResult(ordinal, cs.revision + 1, files, cs.status.Validated?, size);
      var recorded := sets[id].(operations := cs.operations + [Operation(opId, payload, ordinal, result)],
                                rows := files);
      sets := sets[id := recorded.(status := Open, revision := cs.revision + 1, digest := None, after := None)];
      return Staged(result);
    }

    method Validate(id: string, now: int, expectedRevision: int, defaultProfile: bool, payloadsIntact: bool)
      returns (outcome: ValidateOutcome)
      requires Valid()
      modifies this`sets
      ensures Valid()
      ensures id !in old(sets) ==> outcome == ValidateRefused(NotFound) && sets == old(sets)
      ensures id in old(sets) ==>
                var cs := old(sets)[id];
                var spec := ValidateSpec(tools, config, id, cs, cs.workspace in worktrees, now, expectedRevision,
                                         defaultProfile, payloadsIntact);
                outcome == spec.1 && sets == old(sets)[id := spec.0]
    {
      hide OneActive, Objection, Rebuild, DigestOf;
      if id !in sets { return ValidateRefused(NotFound); }
      var cs := sets[id];
      ValidateKeepsApart(tools, config, sets, id, cs.workspace in worktrees, now, expectedRevision, defaultProfile,
                         payloadsIntact);
      if Expiring(cs, now) {
        sets := sets[id := Expire(cs)];
        return ValidateRefused(HasExpired);
      }
      if !(cs.status.Open? || cs.status.Validated?) { return ValidateRefused(InvalidState); }
      if cs.revision != expectedRevision { return ValidateRefused(Conflict); }
      if !defaultProfile { return ValidateRefused(ValidationFailed); }
      if cs.workspace !in worktrees { return ValidateRefused(WorkspaceMissing); }
      if cs.staging.None? {
        sets := sets[id := Reopened(cs)];
        return ValidateRefused(ValidationFailed);
      }
      var after, objection := Examine(cs, cs.staging.value, payloadsIntact);
      if objection.Some? {
        sets := sets[id := cs.(status := Open, digest := None, after := None)];
        return ValidateRefused(objection.value);
      }
      var digest := DigestOf(id, cs, after);
      sets := sets[id := cs.(patch := Some((cs.before, after)))];
      sets := sets[id := sets[id].(status := Validated, digest := Some(digest), after := Some(after))];
      assert sets == old(sets)[id := sets[id]];
      return Bound(digest);
    }

    /** The checks of the staged files, in order: the tree they make, and the first objection to it. */
    method Examine(cs: ChangeSet, staging: Directory, payloadsIntact: bool)
        returns (after: Tree, objection: Option<Error>)
      requires cs.staging == Some(staging)
      ensures objection == Objection(tools, config, cs, payloadsIntact)
      ensures after == Rebuild(cs.before, staging)
    {
      hide ManifestOf, Rebuild;
      after := Rebuild(cs.before, staging);
      if !payloadsIntact { return after, Some(ValidationFailed); }
      if tools.size(staging) > config.maxStagingBytes { return after, Some(LimitExceeded); }
      var files := Manifest(cs.before, after);
      if files != cs.rows { return after, Some(ValidationFailed); }
      if |files| > config.maxChangedFiles { return after, Some(LimitExceeded); }
      if !tools.textual(cs.before, after) || !tools.applies(cs.before, after) { return after, Some(ValidationFailed); }
      objection := None;
    }

    method Rollback(id: string) returns (error: Option<Error>)
      requires Valid()
      modifies this`sets
      ensures Valid()
      ensures id !in old(sets) ==> error == Some(NotFound) && sets == old(sets)
      ensures id in old(sets) ==>
                error == RollbackSpec(old(sets)[id]).1 && sets == old(sets)[id := RollbackSpec(old(sets)[id]).0]
    {
      hide OneActive;
      if id !in sets { return Some(NotFound); }
      var cs := sets[id];
      ChangedApart(sets, id, RollbackSpec(cs).0);
      if cs.status.RolledBack? { return None; }
      if cs.status.Committed? { return Some(AlreadyCommitted); }
      if cs.status.Committing? || cs.status.RecoveryNeeded? { return Some(NeedsRecovery); }
      if cs.status.Expired? { return Some(HasExpired); }
      sets := sets[id := cs.(status := RolledBack, digest := None, after := None)];
      sets := sets[id := sets[id].(staging := None)];
      assert sets == old(sets)[id := sets[id]];
      return None;
    }

    /** Expire every open or validated set whose time is over. */
    method CleanupExpired(now: int) returns (expired: nat)
      requires Valid()
      modifies this`sets
      ensures Valid() && sets.Keys == old(sets).Keys
      ensures forall id :: id in sets ==>
                var cs := old(sets)[id];
                sets[id] == if (cs.status.Open? || cs.status.Validated?) && cs.expiresAt <= now
                            then cs.(status := Status.Expired, staging := None) else cs
      ensures expired == |set id | && id in old(sets)
                                   && (old(sets)[id].status.Open? || old(sets)[id].status.Validated?)
                                   && old(sets)[id].expiresAt <= now|
    {
      ghost var was := sets;
      var rest := sets.Keys;
      ghost var done: set<string> := {};
      expired := 0;
      SweepStarts(was, now);
      hide OneActive, Expire, Expiring, Swept, Overdue;
      while rest != {}
        invariant done !! rest && done + rest == was.Keys
        invariant sets == Swept(was, now, done)
        invariant expired == |Overdue(was, now, done)|
        decreases |rest|
      {
        var id :| id in rest;
        SweepStep(was, now, done, id);
        MoveOver(done, rest, id);
        if Expiring(sets[id], now) {
          sets := sets[id := Expire(sets[id])];
          expired := expired + 1;
        }
        done, rest := done + {id}, rest - {id};
      }
      SweepEnds(was, now);
    }

    // ---------------------------------------------------------- worktree writes

    method RestoreOne(ws: string, denied: string -> bool, copies: Directory, row: RollbackRow,
                      temp: string) returns (ok: bool)
      requires ws in worktrees
      modifies this`worktrees
      ensures var r := RestoreRow(old(worktrees)[ws], denied, copies, row, temp);
              ok == r.Done? && worktrees == old(worktrees)[ws := r.w]
    {
      var w := worktrees[ws];
      if denied(row.path) { return false; }
      if row.recorded.Some? {
        if row.path !in copies || copies[row.path] != row.recorded.value { return false; }
        if exists a :: a in Ancestors(row.path) && a in w.files { return false; }
        w := w.(dirs := w.dirs + Ancestors(row.path));
        if row.path in w.dirs {
          worktrees := worktrees[ws := w.(files := w.files[temp := Regular(copies[row.path])])];
          return false;
        }
        worktrees := worktrees[ws := w.(files := w.files[row.path := Regular(copies[row.path])])];
      } else if row.path in w.files {
        if !w.files[row.path].Regular? { return false; }
        worktrees := worktrees[ws := w.(files := w.files - {row.path})];
      } else if row.path in w.dirs {
        return false;
      }
      return true;
    }

    /** The restore loop, stopped after `rows` rows. */
    method RestoreRows(ws: string, denied: string -> bool, s: Snapshot, temps: nat -> string, rows: nat)
        returns (ok: bool)
      requires ws in worktrees && rows <= |s.rows|
      modifies this`worktrees
      ensures var r := RestoreUpTo(old(worktrees)[ws], denied, s, temps, rows);
              ok == r.Done? && worktrees == old(worktrees)[ws := r.w]
    {
      hide RestoreRow;
      var i := 0;
      while i < rows
        invariant 0 <= i <= rows && ws in worktrees
        invariant RestoreUpTo(old(worktrees)[ws], denied, s, temps, i) == Done(worktrees[ws])
        invariant worktrees == old(worktrees)[ws := worktrees[ws]]
      {
        ok := RestoreOne(ws, denied, s.copies, s.rows[i], temps(i));
        if !ok {
          BrokenStays(old(worktrees)[ws], denied, s, temps, i + 1, rows);
          return false;
        }
        i := i + 1;
      }
      return true;
    }

    /** A restore that dies. */
    method RestoreCut(ws: string, denied: string -> bool, s: Snapshot, temps: nat -> string, c: Crash)
      requires ws in worktrees
      modifies this`worktrees
      ensures worktrees == old(worktrees)[ws := CrashState(old(worktrees)[ws], denied, s, temps, c).w]
    {
      var n := RowsDone(s, c);
      var ok := RestoreRows(ws, denied, s, temps, n);
      if ok && c.leftover.Some? && n < |s.rows| && Copyable(worktrees[ws], denied, s.copies, s.rows[n]) {
        worktrees := worktrees[ws :=
                               WithTemporary(worktrees[ws], s.rows[n].path, c.leftover.value,
                                             s.rows[n].recorded.value)];
      }
    }

    method SetStatus(id: string, status: Status)
      requires id in sets
      modifies this`sets
      ensures sets == old(sets)[id := old(sets)[id].(status := status)]
    {
      sets := sets[id := sets[id].(status := status)];
    }

    method UndoCommit(id: string, s: Snapshot, env: CommitEnv) returns (outcome: CommitOutcome)
      requires id in sets && sets[id].workspace in worktrees
      modifies this
      ensures var cs := old(sets)[id]; var spec := Undo(cs, old(worktrees)[cs.workspace], s, env);
              && sets == old(sets)[id := spec.0] && worktrees == old(worktrees)[cs.workspace := spec.1]
                  && outcome == spec.2
    {
      var cs := sets[id];
      var ws := cs.workspace;
      if env.crash.WhileUndoing? {
        RestoreCut(ws, env.denied, s, env.temps, env.crash.at);
        return CommitCrashed;
      }
      var ok := RestoreRows(ws, env.denied, s, env.temps, |s.rows|);
      if !ok || worktrees[ws].files != cs.before {
        SetStatus(id, RecoveryNeeded);
        return CommitUnproven;
      }
      if env.crash.AfterUndo? { return CommitCrashed; }
      SetStatus(id, RolledBack);
      return CommitUndone;
    }

    method ApplyCommit(id: string, s: Snapshot, env: CommitEnv) returns (outcome: CommitOutcome)
      requires id in sets && sets[id].workspace in worktrees && sets[id].after.Some?
      modifies this
      ensures var cs := old(sets)[id]; var spec := Apply(cs, old(worktrees)[cs.workspace], cs.after.value, s, env);
              && sets == old(sets)[id := spec.0] && worktrees == old(worktrees)[cs.workspace := spec.1]
                  && outcome == spec.2
    {
      hide Undo, Confine;
      var cs := sets[id];
      var ws := cs.workspace;
      sets := sets[id := cs.(status := Committing, rollback := Some(s))];
      if env.crash.BeforeApply? { return CommitCrashed; }
      if !env.git.checks {
        outcome := UndoCommit(id, s, env);
        return;
      }
      worktrees := worktrees[ws := Confine(env.git.leaves, worktrees[ws], PathsOf(cs.rows))];
      if env.crash.WhileApplying? { return CommitCrashed; }
      if !env.git.succeeds || worktrees[ws].files != cs.after.value {
        outcome := UndoCommit(id, s, env);
        return;
      }
      if env.crash.AfterApply? { return CommitCrashed; }
      SetStatus(id, Committed);
      if env.crash.AfterRow? { return CommitCrashed; }
      if env.lastJournalWritten { return CommitDone(false); }
      outcome := UndoCommit(id, s, env);
    }

    method Commit(id: string, digest: Digest, expectedTree: Option<Tree>, env: CommitEnv)
        returns (outcome: CommitOutcome)
      requires Valid()
      modifies this
      ensures Valid()
      ensures id !in old(sets) ==>
              outcome == CommitRefused(NotFound) && sets == old(sets) && worktrees == old(worktrees)
      ensures id in old(sets) ==>
                var cs := old(sets)[id];
                var spec := CommitSpec(cs, Find(old(worktrees), cs.workspace), digest, expectedTree, env);
                && outcome == spec.2 && sets == old(sets)[id := spec.0]
                && worktrees == Put(old(worktrees), cs.workspace, spec.1)
    {
      hide Apply, OneActive;
      if id !in sets { return CommitRefused(NotFound); }
      var cs := sets[id];
      CommitKeepsApart(sets, id, Find(worktrees, cs.workspace), digest, expectedTree, env);
      if cs.status.Committed? {
        if cs.digest != Some(digest) { return CommitRefused(IdempotencyConflict); }
        return CommitDone(true);
      }
      if !cs.status.Validated? {
        return CommitRefused(if cs.status.Open? then NotValidated else InvalidState);
      }
      if cs.digest != Some(digest) || cs.after.None? { return CommitRefused(NotValidated); }
      if expectedTree.Some? && expectedTree.value != cs.before { return CommitRefused(Conflict); }
      if cs.workspace !in worktrees { return CommitRefused(WorkspaceMissing); }
      if worktrees[cs.workspace].files != cs.before { return CommitRefused(Conflict); }
      var s := TakeSnapshot(worktrees[cs.workspace], PathsOf(cs.rows));
      if env.crash.BeforeIntent? {
        sets := sets[id := cs.(rollback := Some(s))];
        return CommitCrashed;
      }
      outcome := ApplyCommit(id, s, env);
    }

    /** One row of the reconcile pass, and its verdict. */
    method ReconcileOne(id: string, denied: string -> bool, temps: nat -> string) returns (status: Status)
      requires id in sets && sets[id].status.Committing?
      modifies this
      ensures var cs := old(sets)[id];
              var spec := ReconcileSpec(cs, Find(old(worktrees), cs.workspace), denied, temps);
              && sets == old(sets)[id := spec.0] && worktrees == Put(old(worktrees), cs.workspace, spec.1)
              && status == spec.0.status
    {
      var cs := sets[id];
      var ws := cs.workspace;
      status := RecoveryNeeded;
      if ws in worktrees && cs.after.Some? && cs.rollback.Some? {
        var current := worktrees[ws].files;
        if current == cs.after.value {
          status := Committed;
        } else if current == cs.before {
          status := RolledBack;
        } else {
          var ok := RestoreRows(ws, denied, cs.rollback.value, temps, |cs.rollback.value.rows|);
          if ok && worktrees[ws].files == cs.before {
            status := RolledBack;
          }
        }
      }
      SetStatus(id, status);
    }

    /**
     A complete reconcile pass: every row that is `committing` is settled against its
     own worktree, in any order, and counted once under its verdict.
     */
    method ReconcileIncomplete(denied: string -> bool, temps: nat -> string)
      returns (counts: Counts)
      requires Valid()
      modifies this
      ensures Valid() && sets.Keys == old(sets).Keys
      ensures forall id :: id in sets ==>
                sets[id] == ReconcileSpec(old(sets)[id], Find(old(worktrees), old(sets)[id].workspace), denied, temps).0
      ensures forall id :: id in sets && old(sets)[id].status.Committing? ==>
                Find(worktrees, old(sets)[id].workspace)
                == ReconcileSpec(old(sets)[id], Find(old(worktrees), old(sets)[id].workspace), denied, temps).1
      ensures forall ws ::
                (forall id :: id in sets && old(sets)[id].workspace == ws ==> !old(sets)[id].status.Committing?) ==>
                  Find(worktrees, ws) == Find(old(worktrees), ws)
      ensures counts.committed == |Ended(old(sets), sets, Committed)|
      ensures counts.rolledBack == |Ended(old(sets), sets, RolledBack)|
      ensures counts.recoveryRequired == |Ended(old(sets), sets, RecoveryNeeded)|
      ensures counts.Sum() == |CommittingIds(old(sets))|
    {
      hide OneActive, ReconcileSpec, Passed, Apart, Counted, Ended, Goals;
      ghost var was := sets;
      ghost var found := worktrees;
      OneActiveApart(was);
      ghost var all;
      counts, all := ReconcileRows(denied, temps);
      PassEnds(was, found, sets, worktrees, all, denied, temps);
      assert all == CommittingIds(was);
      PassCounts(was, found, sets, all, counts, denied, temps);
      PassKeepsApart(was, found, sets, denied, temps);
    }

    /** The loop of the pass. */
    method ReconcileRows(denied: string -> bool, temps: nat -> string) returns (counts: Counts, ghost all: set<string>)
      requires Apart(sets)
      modifies this
      ensures all == CommittingIds(old(sets)) && counts.Sum() == |all|
      ensures Passed(old(sets), old(worktrees), sets, worktrees, all, denied, temps)
      ensures Counted(Goals(old(sets), old(worktrees), denied, temps), all, counts)
    {
      hide *;
      ghost var was := sets;
      ghost var found := worktrees;
      var rest := CommittingIds(sets);
      all := rest;
      ghost var treated: set<string> := {};
      counts := Counts(0, 0, 0);
      PassStarts(was, found, all, denied, temps);
      while rest != {}
        invariant Underway(was, found, sets, worktrees, all, treated, rest, counts, denied, temps)
        decreases |rest|
      {
        var id :| id in rest;
        TurnStep(was, found, sets, worktrees, all, treated, rest, id, counts, denied, temps);
        var status := ReconcileOne(id, denied, temps);
        counts := counts.Plus(status);
        treated, rest := treated + {id}, rest - {id};
      }
      PassOver(was, found, sets, worktrees, all, treated, rest, counts, denied, temps);
    }
  }

  // ----------------------------------------------------------- one active set each

  lemma StageKeepsApart(t: Tools, c: Config, sets: map<string, ChangeSet>, id: string, present: bool, now: int,
                        opId: string, payload: Payload)
    requires OneActive(sets) && id in sets
    ensures OneActive(sets[id := StageSpec(t, c, sets[id], present, now, opId, payload).0])
  {
    hide OneActive;
    ChangedApart(sets, id, StageSpec(t, c, sets[id], present, now, opId, payload).0);
  }

  lemma ValidateKeepsApart(t: Tools, c: Config, sets: map<string, ChangeSet>, id: string, present: bool, now: int,
                           expectedRevision: int, defaultProfile: bool, payloadsIntact: bool)
    requires OneActive(sets) && id in sets
    ensures OneActive(sets[id :=
                           ValidateSpec(t, c, id, sets[id], present, now, expectedRevision, defaultProfile,
                                        payloadsIntact).0])
  {
    hide OneActive;
    ChangedApart(sets, id,
                 ValidateSpec(t, c, id, sets[id], present, now, expectedRevision, defaultProfile, payloadsIntact).0);
  }

  /** The sets after the listed ones have been looked at: those whose time is over are expired, all others untouched. */
  ghost function Swept(was: map<string, ChangeSet>, now: int, done: set<string>): map<string, ChangeSet> {
    map id | id in was :: if id in done && Expiring(was[id], now) then Expire(was[id]) else was[id]
  }

  ghost function Overdue(was: map<string, ChangeSet>, now: int, done: set<string>): set<string> {
    set id | id in done && id in was && Expiring(was[id], now)
  }

  lemma SweepStarts(was: map<string, ChangeSet>, now: int)
    ensures Swept(was, now, {}) == was && Overdue(was, now, {}) == {}
  {
  }

  lemma SweepStep(was: map<string, ChangeSet>, now: int, done: set<string>, id: string)
    requires id in was && id !in done
    ensures id in Swept(was, now, done) && Swept(was, now, done)[id] == was[id]
    ensures Swept(was, now, done + {id}) ==
            (if Expiring(was[id], now) then Swept(was, now, done)[id := Expire(was[id])] else Swept(was, now, done))
    ensures |Overdue(was, now, done + {id})| == |Overdue(was, now, done)| + (if Expiring(was[id], now) then 1 else 0)
  {
    assert Overdue(was, now, done + {id}) == Overdue(was, now, done) + (if Expiring(was[id], now) then {id} else {});
  }

  lemma SweepEnds(was: map<string, ChangeSet>, now: int)
    ensures var sets := Swept(was, now, was.Keys);
            && sets.Keys == was.Keys && (OneActive(was) ==> OneActive(sets))
            && forall id :: id in sets ==>
                 sets[id] == if (was[id].status.Open? || was[id].status.Validated?) && was[id].expiresAt <= now
                             then was[id].(status := Status.Expired, staging := None) else was[id]
    ensures Overdue(was, now, was.Keys) ==
            set id | id in was && (was[id].status.Open? || was[id].status.Validated?) && was[id].expiresAt <= now
  {
  }

  lemma CommitKeepsApart(sets: map<string, ChangeSet>, id: string, w: Option<Worktree>, digest: Digest,
                         expectedTree: Option<Tree>, env: CommitEnv)
    requires OneActive(sets) && id in sets
    ensures OneActive(sets[id := CommitSpec(sets[id], w, digest, expectedTree, env).0])
  {
    hide OneActive, CommitSpec;
    CommitKeepsLog(sets[id], w, digest, expectedTree, env);
    ChangedApart(sets, id, CommitSpec(sets[id], w, digest, expectedTree, env).0);
  }

  /** One element leaves the work list and joins what is done. */
  lemma MoveOver(done: set<string>, rest: set<string>, id: string)
    requires id in rest && done !! rest
    ensures id !in done && id in done + rest && done <= done + rest
    ensures done + {id} !! rest - {id} && (done + {id}) + (rest - {id}) == done + rest && |rest - {id}| == |rest| - 1
  {
  }

  // -------------------------------------------------------------- the reconcile pass

  ghost function Goal(was: map<string, ChangeSet>, found: map<string, Worktree>, id: string,
                      denied: string -> bool, temps: nat -> string): (ChangeSet, Option<Worktree>)
    requires id in was
  {
    ReconcileSpec(was[id], Find(found, was[id].workspace), denied, temps)
  }

  /** The rows in `treated` and their worktrees are settled, everything else is as it was found. */
  ghost predicate Passed(was: map<string, ChangeSet>, found: map<string, Worktree>, sets: map<string, ChangeSet>,
                         worktrees: map<string, Worktree>, treated: set<string>,
                         denied: string -> bool, temps: nat -> string)
  {
    && sets.Keys == was.Keys && treated <= was.Keys
    && (forall id :: id in was && id !in treated ==> sets[id] == was[id])
    && (forall id :: id in treated ==>
          sets[id] == Goal(was, found, id, denied, temps).0
          && Find(worktrees, was[id].workspace) == Goal(was, found, id, denied, temps).1)
    && (forall ws :: (forall id :: id in treated ==> was[id].workspace != ws) ==>
        Find(worktrees, ws) == Find(found, ws))
  }

  /** Rows that are `committing` belong to different workspaces. */
  ghost predicate Apart(was: map<string, ChangeSet>) {
    forall a, b :: a in was && b in was && a != b && was[a].status.Committing? && was[b].status.Committing? ==>
      was[a].workspace != was[b].workspace
  }

  function CommittingIds(sets: map<string, ChangeSet>): set<string> {
    set id | id in sets && sets[id].status.Committing?
  }

  /** In the middle of the pass: some rows are treated and counted, the others are as they were found. */
  ghost predicate Underway(was: map<string, ChangeSet>, found: map<string, Worktree>, sets: map<string, ChangeSet>,
                           worktrees: map<string, Worktree>, all: set<string>, treated: set<string>, rest: set<string>,
                           counts: Counts, denied: string -> bool, temps: nat -> string)
  {
    && Apart(was) && all == CommittingIds(was)
    && treated !! rest && treated + rest == all && counts.Sum() + |rest| == |all|
    && Passed(was, found, sets, worktrees, treated, denied, temps)
    && Counted(Goals(was, found, denied, temps), treated, counts)
  }

  lemma PassStarts(was: map<string, ChangeSet>, found: map<string, Worktree>, all: set<string>,
                   denied: string -> bool, temps: nat -> string)
    requires Apart(was) && all == CommittingIds(was)
    ensures Underway(was, found, was, found, all, {}, all, Counts(0, 0, 0), denied, temps)
  {
    NoneCounted(Goals(was, found, denied, temps));
    hide Goals, Counted;
  }

  lemma PassOver(was: map<string, ChangeSet>, found: map<string, Worktree>, sets: map<string, ChangeSet>,
                 worktrees: map<string, Worktree>, all: set<string>, treated: set<string>, rest: set<string>,
                 counts: Counts, denied: string -> bool, temps: nat -> string)
    requires Underway(was, found, sets, worktrees, all, treated, rest, counts, denied, temps) && rest == {}
    ensures all == CommittingIds(was) && counts.Sum() == |all|
    ensures Passed(was, found, sets, worktrees, all, denied, temps)
    ensures Counted(Goals(was, found, denied, temps), all, counts)
  {
    hide Passed, Counted, Goals, CommittingIds, Apart;
    assert treated == all;
  }

  /** One turn of the pass. */
  lemma TurnStep(was: map<string, ChangeSet>, found: map<string, Worktree>, sets: map<string, ChangeSet>,
                 worktrees: map<string, Worktree>, all: set<string>, treated: set<string>, rest: set<string>,
                 id: string, counts: Counts, denied: string -> bool, temps: nat -> string)
    requires Underway(was, found, sets, worktrees, all, treated, rest, counts, denied, temps) && id in rest
    ensures id in sets && sets[id].status.Committing? && |rest - {id}| < |rest|
    ensures var spec := ReconcileSpec(sets[id], Find(worktrees, sets[id].workspace), denied, temps);
            Underway(was, found, sets[id := spec.0], Put(worktrees, sets[id].workspace, spec.1), all,
                     treated + {id}, rest - {id}, counts.Plus(spec.0.status), denied, temps)
  {
    hide Passed, Counted, Goals, CommittingIds, Apart, Goal, ReconcileSpec, Put, Find;
    MoveOver(treated, rest, id);
    PassStep(was, found, sets, worktrees, all, treated, id, denied, temps);
    CountStep(was, found, treated, id, counts, denied, temps);
  }

  lemma PassStep(was: map<string, ChangeSet>, found: map<string, Worktree>, sets: map<string, ChangeSet>,
                 worktrees: map<string, Worktree>, all: set<string>, treated: set<string>, id: string,
                 denied: string -> bool, temps: nat -> string)
    requires Apart(was) && Passed(was, found, sets, worktrees, treated, denied, temps) && all == CommittingIds(was)
    requires id in all && id !in treated && treated <= all
    ensures id in was && was[id].status.Committing? && id in sets && sets[id] == was[id]
    ensures var ws := was[id].workspace;
            var spec := Goal(was, found, id, denied, temps);
            && spec == ReconcileSpec(sets[id], Find(worktrees, ws), denied, temps)
            && Passed(was, found, sets[id := spec.0], Put(worktrees, ws, spec.1), treated + {id}, denied, temps)
  {
    hide ReconcileSpec;
    var ws := was[id].workspace;
    assert forall i :: i in treated ==> was[i].workspace != ws;
    assert Find(worktrees, ws) == Find(found, ws);
    var spec := ReconcileSpec(sets[id], Find(worktrees, ws), denied, temps);
    ReconciledWorktree(was[id], Find(found, ws), denied, temps);
    PutFind(worktrees, ws, spec.1);
    hide Put, Find, Apart;
    PassAdds(was, found, sets, worktrees, treated, id, Put(worktrees, ws, spec.1), denied, temps);
  }

  lemma PassAdds(was: map<string, ChangeSet>, found: map<string, Worktree>, sets: map<string, ChangeSet>,
                 worktrees: map<string, Worktree>, treated: set<string>, id: string, after: map<string, Worktree>,
                 denied: string -> bool, temps: nat -> string)
    requires Passed(was, found, sets, worktrees, treated, denied, temps) && id in was && id !in treated
    requires forall i :: i in treated ==> was[i].workspace != was[id].workspace
    requires Find(after, was[id].workspace) == Goal(was, found, id, denied, temps).1
    requires forall v :: v != was[id].workspace ==> Find(after, v) == Find(worktrees, v)
    ensures Passed(was, found, sets[id := Goal(was, found, id, denied, temps).0], after, treated + {id}, denied, temps)
  {
    hide Find, Goal;
  }

  lemma PassEnds(was: map<string, ChangeSet>, found: map<string, Worktree>, sets: map<string, ChangeSet>,
                 worktrees: map<string, Worktree>, all: set<string>, denied: string -> bool, temps: nat -> string)
    requires Passed(was, found, sets, worktrees, all, denied, temps)
    requires all == CommittingIds(was)
    ensures sets.Keys == was.Keys
    ensures forall id :: id in was ==>
            sets[id] == ReconcileSpec(was[id], Find(found, was[id].workspace), denied, temps).0
    ensures forall id :: id in was && was[id].status.Committing? ==>
              Find(worktrees, was[id].workspace) ==
                  ReconcileSpec(was[id], Find(found, was[id].workspace), denied, temps).1
    ensures forall ws :: (forall id :: id in was && was[id].workspace == ws ==> !was[id].status.Committing?) ==>
              Find(worktrees, ws) == Find(found, ws)
  {
    forall id | id in was
      ensures sets[id] == ReconcileSpec(was[id], Find(found, was[id].workspace), denied, temps).0
    {
      if id !in all { NotCommittingUntouched(was[id], Find(found, was[id].workspace), denied, temps); }
    }
  }

  /** The rows that were `committing` and ended with this status. */
  ghost function Ended(was: map<string, ChangeSet>, sets: map<string, ChangeSet>, status: Status): set<string> {
    set id | id in was && was[id].status.Committing? && id in sets && sets[id].status == status
  }

  /** The status that the pass gives each row. */
  ghost function Goals(was: map<string, ChangeSet>, found: map<string, Worktree>, denied: string -> bool,
                       temps: nat -> string): map<string, Status>
  {
    map id | id in was :: Goal(was, found, id, denied, temps).0.status
  }

  ghost function With(goals: map<string, Status>, treated: set<string>, status: Status): set<string> {
    set id | id in treated && id in goals && goals[id] == status
  }

  /** The counters are the numbers of treated rows with each verdict. */
  ghost predicate Counted(goals: map<string, Status>, treated: set<string>, counts: Counts) {
    && counts.committed == |With(goals, treated, Committed)|
    && counts.rolledBack == |With(goals, treated, RolledBack)|
    && counts.recoveryRequired == |With(goals, treated, RecoveryNeeded)|
  }

  lemma NoneCounted(goals: map<string, Status>)
    ensures Counted(goals, {}, Counts(0, 0, 0))
  {
    forall status ensures With(goals, {}, status) == {} {
    }
  }

  lemma WithAdds(goals: map<string, Status>, treated: set<string>, id: string, status: Status)
    requires id in goals && id !in treated
    ensures |With(goals, treated + {id}, status)| ==
            |With(goals, treated, status)| + (if goals[id] == status then 1 else 0)
  {
    assert With(goals, treated + {id}, status) ==
        With(goals, treated, status) + (if goals[id] == status then {id} else {});
  }

  /** One more row counts under its verdict and under no other. */
  lemma CountStep(was: map<string, ChangeSet>, found: map<string, Worktree>, treated: set<string>, id: string,
                  counts: Counts, denied: string -> bool, temps: nat -> string)
    requires id in was && id !in treated && was[id].status.Committing?
    requires Counted(Goals(was, found, denied, temps), treated, counts)
    ensures Counted(Goals(was, found, denied, temps), treated + {id},
                    counts.Plus(Goal(was, found, id, denied, temps).0.status))
  {
    hide ReconcileSpec, Find, With;
    ReconcileKeepsLog(was[id], Find(found, was[id].workspace), denied, temps);
    ReconcileEnds(was[id], Find(found, was[id].workspace), denied, temps);
    var goals := Goals(was, found, denied, temps);
    WithAdds(goals, treated, id, Committed);
    WithAdds(goals, treated, id, RolledBack);
    WithAdds(goals, treated, id, RecoveryNeeded);
  }

  lemma OneActiveApart(sets: map<string, ChangeSet>)
    requires OneActive(sets)
    ensures Apart(sets)
  {
  }

  lemma ReconcileEnds(cs: ChangeSet, w: Option<Worktree>, denied: string -> bool, temps: nat -> string)
    requires cs.status.Committing?
    ensures !ReconcileSpec(cs, w, denied, temps).0.status.Committing?
  {
    hide Reconciled;
  }

  lemma PassCounts(was: map<string, ChangeSet>, found: map<string, Worktree>, sets: map<string, ChangeSet>,
                   all: set<string>, counts: Counts, denied: string -> bool, temps: nat -> string)
    requires all == CommittingIds(was) && sets.Keys == was.Keys
    requires forall id :: id in was ==>
             sets[id] == ReconcileSpec(was[id], Find(found, was[id].workspace), denied, temps).0
    requires Counted(Goals(was, found, denied, temps), all, counts)
    ensures counts.committed == |Ended(was, sets, Committed)| && counts.rolledBack == |Ended(was, sets, RolledBack)|
    ensures counts.recoveryRequired == |Ended(was, sets, RecoveryNeeded)|
  {
    hide ReconcileSpec, Find;
    forall status ensures With(Goals(was, found, denied, temps), all, status) == Ended(was, sets, status) {
    }
  }

  lemma PassKeepsApart(was: map<string, ChangeSet>, found: map<string, Worktree>, sets: map<string, ChangeSet>,
                       denied: string -> bool, temps: nat -> string)
    requires OneActive(was) && sets.Keys == was.Keys
    requires forall id :: id in was ==>
             sets[id] == ReconcileSpec(was[id], Find(found, was[id].workspace), denied, temps).0
    ensures OneActive(sets)
  {
    hide ReconcileSpec, Find;
    forall id | id in was
        ensures sets[id].workspace == was[id].workspace && (Active(sets[id].status) ==> Active(was[id].status)) {
      ReconcileKeepsLog(was[id], Find(found, was[id].workspace), denied, temps);
    }
  }

  lemma PutFind(worktrees: map<string, Worktree>, ws: string, w: Option<Worktree>)
    requires w.Some? <==> ws in worktrees
    ensures Find(Put(worktrees, ws, w), ws) == w
    ensures forall v :: v != ws ==> Find(Put(worktrees, ws, w), v) == Find(worktrees, v)
  {
  }

  lemma ReconciledWorktree(cs: ChangeSet, w: Option<Worktree>, denied: string -> bool, temps: nat -> string)
    requires cs.status.Committing?
    ensures ReconcileSpec(cs, w, denied, temps).1.Some? <==> w.Some?
  {
    hide Reconciled;
  }

  lemma NotCommittingUntouched(cs: ChangeSet, w: Option<Worktree>, denied: string -> bool, temps: nat -> string)
    requires !cs.status.Committing?
    ensures ReconcileSpec(cs, w, denied, temps) == (cs, w)
  {
  }
}
