/**
 What the operations on one change set do: begin, stage with idempotent replay,
 validate, roll back and expire.

 A hash is modelled by what it is computed from, a patch by the pair of trees it
 was made from, and the foreign programs by the functions in `Tools`.
 */
module ChangeSets {
  import opened Common
  import opened Paths
  import opened Trees
  import opened Restore

  datatype Status = Open | Validated | Committing | RecoveryNeeded | Committed | RolledBack | Expired

  predicate Active(s: Status) {
    s.Open? || s.Validated? || s.Committing? || s.RecoveryNeeded?
  }

  predicate Terminal(s: Status) {
    s.Committed? || s.RolledBack? || s.Expired?
  }

  /** Kind and canonical body of a staged edit. */
  datatype Payload = Payload(kind: string, body: string)

  /** An edit either completes, or raises having written part of its effect. */
  datatype Applied = Edited(d: Directory) | Raised(d: Directory)

  datatype Tools = Tools(
    apply: (Directory, Payload) -> Applied,   // git apply, or the text replacement
    size: Directory -> nat,
    textual: (Tree, Tree) -> bool,            // git diff shows no binary file
    applies: (Tree, Tree) -> bool)            // git apply --check of the diff on the captured tree

  datatype Config = Config(enabled: bool, maxOperations: int, maxStagingBytes: int, maxChangedFiles: int, ttl: int)

  datatype Digest = Digest(id: string, revision: nat, before: Tree, after: Tree, inputs: seq<Payload>)

  datatype StageResult = StageResult(ordinal: nat, revision: nat, rows: seq<FileRow>, invalidated: bool, size: nat)

  datatype Operation = Operation(id: string, payload: Payload, ordinal: nat, result: StageResult)

  datatype ChangeSet = ChangeSet(
    workspace: string,
    status: Status,
    revision: nat,
    before: Tree,
    after: Option<Tree>,
    digest: Option<Digest>,
    expiresAt: int,
    operations: seq<Operation>,
    rows: seq<FileRow>,
    staging: Option<Directory>,
    patch: Option<(Tree, Tree)>,
    rollback: Option<Snapshot>)

  datatype Error =
    | NotFound | Disabled | InvalidInput | WorkspaceMissing | AlreadyActive | LimitExceeded | HasExpired | InvalidState
    | IdempotencyConflict | EditFailed | Conflict | ValidationFailed | NotValidated | AlreadyCommitted | NeedsRecovery

  datatype StageOutcome = Staged(result: StageResult) | Replayed(result: StageResult) | StageRefused(error: Error)

  datatype ValidateOutcome = Bound(digest: Digest) | ValidateRefused(error: Error)

  // ------------------------------------------------------------- specification

  function Begun(ws: string, tree: Tree, expiresAt: int): ChangeSet {
    ChangeSet(ws, Open, 1, tree, None, None, expiresAt, [], [], Some(Materialize(tree)), None, None)
  }

  predicate Expiring(cs: ChangeSet, now: int) {
    (cs.status.Open? || cs.status.Validated?) && cs.expiresAt <= now
  }

  function Expire(cs: ChangeSet): ChangeSet {
    cs.(status := Expired, staging := None)
  }

  function FindOperation(ops: seq<Operation>, id: string): (r: Option<Operation>)
    ensures r.Some? ==> r.value in ops && r.value.id == id
    ensures r.None? ==> forall o :: o in ops ==> o.id != id
  {
    if ops == [] then None
    else if ops[0].id == id then Some(ops[0])
    else FindOperation(ops[1..], id)
  }

  function MaxOrdinal(ops: seq<Operation>): nat {
    if ops == [] then 0
    else
      var m := MaxOrdinal(ops[..|ops| - 1]);
      if m < ops[|ops| - 1].ordinal then ops[|ops| - 1].ordinal else m
  }

  function Inputs(ops: seq<Operation>): seq<Payload> {
    seq(|ops|, i requires 0 <= i < |ops| => ops[i].payload)
  }

  function DigestOf(id: string, cs: ChangeSet, after: Tree): Digest {
    Digest(id, cs.revision, cs.before, after, Inputs(cs.operations))
  }

  /** The change set after an edit turned the staging directory into d. */
  ghost function Recorded(t: Tools, cs: ChangeSet, opId: string, payload: Payload, d: Directory): ChangeSet {
    var rows := ManifestOf(cs.before, Rebuild(cs.before, d));
    var result := StageResult(MaxOrdinal(cs.operations) + 1, cs.revision + 1, rows, cs.status.Validated?, t.size(d));
    cs.(status := Open, revision := cs.revision + 1, after := None, digest := None, rows := rows, staging := Some(d),
        operations := cs.operations + [Operation(opId, payload, result.ordinal, result)])
  }

  /** Apply the edit; unless every limit holds the staging directory is put back. */
  ghost function EditSpec(t: Tools, c: Config, cs: ChangeSet, present: bool, opId: string, payload: Payload)
    : (ChangeSet, StageOutcome)
    requires cs.staging.Some?
  {
    match t.apply(cs.staging.value, payload)
    case Raised(_) => (cs, StageRefused(EditFailed))
    case Edited(d) =>
      var next := Recorded(t, cs, opId, payload, d);
      if t.size(d) > c.maxStagingBytes then (cs, StageRefused(LimitExceeded))
      else if !present then (cs, StageRefused(WorkspaceMissing))
      else if |next.rows| > c.maxChangedFiles then (cs, StageRefused(LimitExceeded))
      else (next, Staged(next.operations[|cs.operations|].result))
  }

  ghost function StageSpec(t: Tools, c: Config, cs: ChangeSet, present: bool, now: int, opId: string, payload: Payload)
    : (ChangeSet, StageOutcome)
  {
    match FindOperation(cs.operations, opId)
    case Some(o) => (cs, if o.payload == payload then Replayed(o.result) else StageRefused(IdempotencyConflict))
    case None =>
      if Expiring(cs, now) then (Expire(cs), StageRefused(HasExpired))
      else if !(cs.status.Open? || cs.status.Validated?) then (cs, StageRefused(InvalidState))
      else if |cs.operations| >= c.maxOperations then (cs, StageRefused(LimitExceeded))
      else if cs.staging.None? then (cs, StageRefused(EditFailed))
      else EditSpec(t, c, cs, present, opId, payload)
  }

  function Reopened(cs: ChangeSet): ChangeSet {
    cs.(status := Open, digest := None, after := None)
  }

  /** The record that validation writes. */
  function BoundSet(id: string, cs: ChangeSet, after: Tree): ChangeSet {
    cs.(status := Validated, digest := Some(DigestOf(id, cs, after)), after := Some(after),
        patch := Some((cs.before, after)))
  }

  /** Why validation rejects the staged files, if it does. */
  ghost function Objection(t: Tools, c: Config, cs: ChangeSet, payloadsIntact: bool): Option<Error>
    requires cs.staging.Some?
  {
    var after := Rebuild(cs.before, cs.staging.value);
    if !payloadsIntact then Some(ValidationFailed)
    else if t.size(cs.staging.value) > c.maxStagingBytes then Some(LimitExceeded)
    else if ManifestOf(cs.before, after) != cs.rows then Some(ValidationFailed)
    else if |cs.rows| > c.maxChangedFiles then Some(LimitExceeded)
    else if !t.textual(cs.before, after) || !t.applies(cs.before, after) then Some(ValidationFailed)
    else None
  }

  ghost function ValidateSpec(t: Tools, c: Config, id: string, cs: ChangeSet, present: bool, now: int,
                              expectedRevision: int, defaultProfile: bool, payloadsIntact: bool)
    : (ChangeSet, ValidateOutcome)
  {
    if Expiring(cs, now) then (Expire(cs), ValidateRefused(HasExpired))
    else if !(cs.status.Open? || cs.status.Validated?) then (cs, ValidateRefused(InvalidState))
    else if cs.revision != expectedRevision then (cs, ValidateRefused(Conflict))
    else if !defaultProfile then (cs, ValidateRefused(ValidationFailed))
    else if !present then (cs, ValidateRefused(WorkspaceMissing))
    else if cs.staging.None? then (Reopened(cs), ValidateRefused(ValidationFailed))
    else
      match Objection(t, c, cs, payloadsIntact)
      case Some(e) => (Reopened(cs), ValidateRefused(e))
      case None =>
        var after := Rebuild(cs.before, cs.staging.value);
        (BoundSet(id, cs, after), Bound(DigestOf(id, cs, after)))
  }

  function RollbackSpec(cs: ChangeSet): (ChangeSet, Option<Error>) {
    match cs.status
    case RolledBack => (cs, None)
    case Committed => (cs, Some(AlreadyCommitted))
    case Committing => (cs, Some(NeedsRecovery))
    case RecoveryNeeded => (cs, Some(NeedsRecovery))
    case Expired => (cs, Some(HasExpired))
    case Open => (cs.(status := RolledBack, digest := None, after := None, staging := None), None)
    case Validated => (cs.(status := RolledBack, digest := None, after := None, staging := None), None)
  }

  // ----------------------------------------------------- the meaning of a change set

  /** The recorded edits applied one after the other; None if one of them would raise. */
  function Fold(t: Tools, start: Directory, ops: seq<Operation>): Option<Directory> {
    if ops == [] then Some(start)
    else
      match Fold(t, start, ops[..|ops| - 1])
      case None => None
      case Some(d) =>
        match t.apply(d, ops[|ops| - 1].payload)
        case Raised(_) => None
        case Edited(e) => Some(e)
  }

  /** What the recorded edits make of the captured tree. */
  ghost predicate Means(t: Tools, cs: ChangeSet, d: Directory) {
    Fold(t, Materialize(cs.before), cs.operations) == Some(d)
  }

  ghost predicate LogOk(cs: ChangeSet) {
    && cs.revision == |cs.operations| + 1
    && (forall i :: 0 <= i < |cs.operations| ==> cs.operations[i].ordinal == i + 1)
    && (forall i, j :: 0 <= i < j < |cs.operations| ==> cs.operations[i].id != cs.operations[j].id)
  }

  /** Digest, after tree and patch are those of the directory d the edits mean. */
  ghost predicate BoundTo(id: string, cs: ChangeSet, d: Directory) {
    var after := Rebuild(cs.before, d);
    cs.after == Some(after) && cs.digest == Some(DigestOf(id, cs, after)) && cs.patch == Some((cs.before, after))
  }

  ghost predicate Inv(t: Tools, id: string, cs: ChangeSet) {
    && LogOk(cs)
    && exists d :: && Means(t, cs, d)
                   && cs.rows == ManifestOf(cs.before, Rebuild(cs.before, d))
                   && (cs.status.Open? || cs.status.Validated? ==> cs.staging == Some(d))
                   && (cs.status.Validated? || cs.status.Committing? || cs.status.Committed? ==> BoundTo(id, cs, d))
  }

  lemma BegunInv(t: Tools, id: string, ws: string, tree: Tree, expiresAt: int)
    ensures Inv(t, id, Begun(ws, tree, expiresAt))
  {
    var cs := Begun(ws, tree, expiresAt);
    RebuildUntouched(tree);
    assert Changed(tree, tree) == {};
    assert Sorted(Changed(tree, tree)) == [];
    assert Means(t, cs, Materialize(tree));
  }

  lemma {:induction false} MaxOrdinalIsCount(ops: seq<Operation>)
    requires forall i :: 0 <= i < |ops| ==> ops[i].ordinal == i + 1
    ensures MaxOrdinal(ops) == |ops|
  {
    if ops != [] { MaxOrdinalIsCount(ops[..|ops| - 1]); }
  }

  /** A staged edit extends the recorded edits by one and the staging directory by its effect. */
  lemma RecordedInv(t: Tools, id: string, cs: ChangeSet, opId: string, payload: Payload, d: Directory)
    requires Inv(t, id, cs) && (cs.status.Open? || cs.status.Validated?) && cs.staging.Some?
    requires t.apply(cs.staging.value, payload) == Edited(d)
    requires forall o :: o in cs.operations ==> o.id != opId
    ensures var next := Recorded(t, cs, opId, payload, d);
            && Inv(t, id, next) && Means(t, next, d)
            && next.operations[|cs.operations|].ordinal == |cs.operations| + 1
  {
    hide Inv, Rebuild, ManifestOf, Means, LogOk;
    StagesItsMeaning(t, id, cs);
    RecordedLog(t, cs, opId, payload, d);
    RecordedMeans(t, cs, opId, payload, d);
    OpenInv(t, id, Recorded(t, cs, opId, payload, d), d);
  }

  lemma RecordedLog(t: Tools, cs: ChangeSet, opId: string, payload: Payload, d: Directory)
    requires LogOk(cs) && forall o :: o in cs.operations ==> o.id != opId
    ensures LogOk(Recorded(t, cs, opId, payload, d))
    ensures Recorded(t, cs, opId, payload, d).operations[|cs.operations|].ordinal == |cs.operations| + 1
  {
    hide Rebuild, ManifestOf;
    MaxOrdinalIsCount(cs.operations);
  }

  lemma RecordedMeans(t: Tools, cs: ChangeSet, opId: string, payload: Payload, d: Directory)
    requires cs.staging.Some? && Means(t, cs, cs.staging.value) && t.apply(cs.staging.value, payload) == Edited(d)
    ensures Means(t, Recorded(t, cs, opId, payload, d), d)
  {
    hide Rebuild, ManifestOf, MaxOrdinal;
    var next := Recorded(t, cs, opId, payload, d);
    assert next.operations[..|next.operations| - 1] == cs.operations;
  }

  /** What makes the invariant of an open set. */
  lemma OpenInv(t: Tools, id: string, cs: ChangeSet, d: Directory)
    requires LogOk(cs) && Means(t, cs, d) && cs.status.Open? && cs.staging == Some(d)
    requires cs.rows == ManifestOf(cs.before, Rebuild(cs.before, d))
    ensures Inv(t, id, cs)
  {
    hide Means, LogOk, Rebuild, ManifestOf;
  }

  lemma StageInv(t: Tools, c: Config, id: string, cs: ChangeSet, present: bool, now: int, opId: string,
                 payload: Payload)
    requires Inv(t, id, cs)
    ensures Inv(t, id, StageSpec(t, c, cs, present, now, opId, payload).0)
  {
    hide Inv, ManifestOf, Rebuild, MaxOrdinal;
    var (next, outcome) := StageSpec(t, c, cs, present, now, opId, payload);
    ExpireInv(t, id, cs);
    if outcome.Staged? {
      StagesItsMeaning(t, id, cs);
      RecordedInv(t, id, cs, opId, payload, t.apply(cs.staging.value, payload).d);
    }
  }

  lemma ValidateInv(t: Tools, c: Config, id: string, cs: ChangeSet, present: bool, now: int, expectedRevision: int,
                    defaultProfile: bool, payloadsIntact: bool)
    requires Inv(t, id, cs)
    ensures Inv(t, id, ValidateSpec(t, c, id, cs, present, now, expectedRevision, defaultProfile, payloadsIntact).0)
  {
    hide Inv, Rebuild, ManifestOf, Objection;
    ExpireInv(t, id, cs);
    if cs.status.Open? || cs.status.Validated? {
      ReopenedInv(t, id, cs);
      BoundInv(t, id, cs);
    }
  }

  /** An open or validated set stages what its recorded edits mean. */
  lemma StagesItsMeaning(t: Tools, id: string, cs: ChangeSet)
    requires Inv(t, id, cs) && (cs.status.Open? || cs.status.Validated?)
    ensures LogOk(cs) && cs.staging.Some? && Means(t, cs, cs.staging.value)
    ensures cs.rows == ManifestOf(cs.before, Rebuild(cs.before, cs.staging.value))
  {
    hide Rebuild, ManifestOf, Means, LogOk;
  }

  lemma ReopenedInv(t: Tools, id: string, cs: ChangeSet)
    requires Inv(t, id, cs) && (cs.status.Open? || cs.status.Validated?)
    ensures Inv(t, id, Reopened(cs))
  {
    StagesItsMeaning(t, id, cs);
    hide Rebuild, ManifestOf;
    assert Means(t, Reopened(cs), cs.staging.value);
  }

  lemma BoundInv(t: Tools, id: string, cs: ChangeSet)
    requires Inv(t, id, cs) && (cs.status.Open? || cs.status.Validated?)
    ensures cs.staging.Some?
    ensures Inv(t, id, BoundSet(id, cs, Rebuild(cs.before, cs.staging.value)))
  {
    StagesItsMeaning(t, id, cs);
    hide Rebuild, ManifestOf;
    assert Means(t, BoundSet(id, cs, Rebuild(cs.before, cs.staging.value)), cs.staging.value);
  }

  lemma RollbackInv(t: Tools, id: string, cs: ChangeSet)
    requires Inv(t, id, cs)
    ensures Inv(t, id, RollbackSpec(cs).0)
  {
    var d :| Means(t, cs, d) && cs.rows == ManifestOf(cs.before, Rebuild(cs.before, d));
    assert Means(t, RollbackSpec(cs).0, d);
  }

  lemma ExpireInv(t: Tools, id: string, cs: ChangeSet)
    requires Inv(t, id, cs)
    ensures Inv(t, id, Expire(cs))
  {
    var d :| Means(t, cs, d) && cs.rows == ManifestOf(cs.before, Rebuild(cs.before, d));
    assert Means(t, Expire(cs), d);
  }

  /**
   A stage call that fails or replays leaves the log alone; it leaves the whole
   change set alone unless it finds it expired.
   */
  lemma FailedStageChangesNothing(t: Tools, c: Config, cs: ChangeSet, present: bool, now: int, opId: string,
                                  payload: Payload)
    ensures var (next, outcome) := StageSpec(t, c, cs, present, now, opId, payload);
            && (!outcome.Staged? ==> next.operations == cs.operations && next.revision == cs.revision)
            && (!outcome.Staged? && outcome != StageRefused(HasExpired) ==> next == cs)
            && (outcome.Staged? ==> next.operations[..|cs.operations|] == cs.operations
                                    && |next.operations| == |cs.operations| + 1 && next.revision == cs.revision + 1
                                    && next.status.Open? && next.digest.None? && next.after.None?)
  {
  }

  /** Repeating a stage call that succeeded returns its result and changes nothing, at any later time. */
  lemma ReplayReturnsResult(t: Tools, c: Config, id: string, cs: ChangeSet, present: bool, now: int, opId: string,
                            payload: Payload, laterPresent: bool, later: int)
    requires Inv(t, id, cs)
    requires StageSpec(t, c, cs, present, now, opId, payload).1.Staged?
    ensures var (next, outcome) := StageSpec(t, c, cs, present, now, opId, payload);
            StageSpec(t, c, next, laterPresent, later, opId, payload) == (next, Replayed(outcome.result))
  {
    var (next, outcome) := StageSpec(t, c, cs, present, now, opId, payload);
    FindAppended(cs.operations, next.operations[|cs.operations|]);
  }

  lemma {:induction false} FindAppended(ops: seq<Operation>, o: Operation)
    requires forall p :: p in ops ==> p.id != o.id
    ensures FindOperation(ops + [o], o.id) == Some(o)
  {
    if ops != [] {
      assert (ops + [o])[1..] == ops[1..] + [o];
      FindAppended(ops[1..], o);
    }
  }

  // ------------------------------------------------------ a stage call cut short

  /** A crash inside a stage call leaves its writes in the staging directory and nothing in the log. */
  function Interrupted(cs: ChangeSet, dirty: Directory): ChangeSet {
    cs.(staging := Some(dirty))
  }

  /**
   Validation notices: with every other check passing it accepts the interrupted
   state exactly when the dirty files rebuild to the tree the log means.
   */
  lemma ValidateNoticesInterruption(t: Tools, c: Config, id: string, cs: ChangeSet, dirty: Directory, now: int)
    requires Inv(t, id, cs) && (cs.status.Open? || cs.status.Validated?) && !Expiring(cs, now) && cs.staging.Some?
    requires t.size(dirty) <= c.maxStagingBytes && |cs.rows| <= c.maxChangedFiles
    requires t.textual(cs.before, Rebuild(cs.before, dirty)) && t.applies(cs.before, Rebuild(cs.before, dirty))
    ensures ValidateSpec(t, c, id, Interrupted(cs, dirty), true, now, cs.revision, true, true).1.Bound?
            <==> Rebuild(cs.before, dirty) == Rebuild(cs.before, cs.staging.value)
  {
    hide Inv, Rebuild, ManifestOf, LogOk, Means;
    StagesItsMeaning(t, id, cs);
    var d := cs.staging.value;
    if ManifestOf(cs.before, Rebuild(cs.before, dirty)) == ManifestOf(cs.before, Rebuild(cs.before, d)) {
      ManifestDeterminesTree(cs.before, dirty, d);
    }
  }

  /**
   A further stage call does not notice: it keeps the dirty files, so the staging
   directory is what the log means only if the edit gives the same on both.
   */
  lemma StageKeepsInterruption(t: Tools, c: Config, id: string, cs: ChangeSet, dirty: Directory, now: int,
                               opId: string, payload: Payload, clean: Directory)
    requires Inv(t, id, cs) && (cs.status.Open? || cs.status.Validated?) && cs.staging.Some?
    requires StageSpec(t, c, Interrupted(cs, dirty), true, now, opId, payload).1.Staged?
    requires t.apply(cs.staging.value, payload) == Edited(clean)
    ensures var next := StageSpec(t, c, Interrupted(cs, dirty), true, now, opId, payload).0;
            && Means(t, next, clean)
            && (next.staging == Some(clean) <==> t.apply(dirty, payload) == Edited(clean))
  {
    hide Inv, Rebuild, ManifestOf, MaxOrdinal, LogOk, Means;
    StagesItsMeaning(t, id, cs);
    RecordedMeans(t, cs, opId, payload, clean);
    SameLogSameMeaning(t, Recorded(t, cs, opId, payload, clean),
                       StageSpec(t, c, Interrupted(cs, dirty), true, now, opId, payload).0, clean);
  }

  lemma SameLogSameMeaning(t: Tools, cs: ChangeSet, other: ChangeSet, d: Directory)
    requires Means(t, cs, d) && other.before == cs.before && |other.operations| == |cs.operations|
    requires forall i :: 0 <= i < |cs.operations| ==> other.operations[i].payload == cs.operations[i].payload
    ensures Means(t, other, d)
  {
    SameFold(t, Materialize(cs.before), cs.operations, other.operations);
  }

  lemma {:induction false} SameFold(t: Tools, start: Directory, a: seq<Operation>, b: seq<Operation>)
    requires |a| == |b| && forall i :: 0 <= i < |a| ==> a[i].payload == b[i].payload
    ensures Fold(t, start, a) == Fold(t, start, b)
  {
    if a != [] { SameFold(t, start, a[..|a| - 1], b[..|b| - 1]); }
  }
}
