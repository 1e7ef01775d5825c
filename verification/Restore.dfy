/**
 Rolling a worktree back: the snapshot taken before a commit writes, the restore
 loop, and what an interrupted restore leaves for the next one.
 */
module Restore {
  import opened Common
  import opened Paths
  import opened Trees

  /** The files of a worktree and its directories; a tree hash sees only the files. */
  datatype Worktree = Worktree(files: Tree, dirs: set<string>)

  /** A row of the rollback manifest: the content recorded for a path, or that there was no file. */
  datatype RollbackRow = RollbackRow(path: string, recorded: Option<File>)

  /** The rollback directory: its manifest and the copies next to it. */
  datatype Snapshot = Snapshot(rows: seq<RollbackRow>, copies: Directory)

  datatype Outcome = Done(w: Worktree) | Broken(w: Worktree)

  function Get(t: Tree, p: string): Option<Entry> {
    if p in t then Some(t[p]) else None
  }

  predicate IsFile(w: Worktree, p: string) {
    p in w.files && w.files[p].Regular?
  }

  // ---------------------------------------------------------------- snapshot

  function RollbackRowOf(w: Worktree, p: string): RollbackRow {
    RollbackRow(p, if IsFile(w, p) then Some(w.files[p].file) else None)
  }

  function SnapshotOf(w: Worktree, paths: seq<string>): Snapshot {
    Snapshot(seq(|paths|, i requires 0 <= i < |paths| => RollbackRowOf(w, paths[i])),
             map p | p in paths && IsFile(w, p) :: w.files[p].file)
  }

  method TakeSnapshot(w: Worktree, paths: seq<string>) returns (s: Snapshot)
    ensures s == SnapshotOf(w, paths)
  {
    var rows, copies := [], map[];
    var i := 0;
    while i < |paths|
      invariant 0 <= i <= |paths| && |rows| == i
      invariant forall k :: 0 <= k < i ==> rows[k] == RollbackRowOf(w, paths[k])
      invariant copies == map p | p in paths[..i] && IsFile(w, p) :: w.files[p].file
    {
      var target := paths[i];
      assert paths[..i + 1] == paths[..i] + [target];
      if IsFile(w, target) {
        copies := copies[target := w.files[target].file];
        rows := rows + [RollbackRow(target, Some(copies[target]))];
      } else {
        rows := rows + [RollbackRow(target, None)];
      }
      i := i + 1;
    }
    assert paths[..i] == paths;
    s := Snapshot(rows, copies);
  }

  // ----------------------------------------------------------------- restore

  /** The directories that mkdir creates, and the temporary copy next to the target. */
  function WithTemporary(w: Worktree, target: string, temp: string, file: File): Worktree {
    Worktree(w.files[temp := Regular(file)], w.dirs + Ancestors(target))
  }

  /** The copy of this row is in place and agrees with the hash recorded for it. */
  predicate CopyIntact(copies: Directory, row: RollbackRow) {
    row.recorded.Some? ==> row.path in copies && copies[row.path] == row.recorded.value
  }

  /** The temporary copy of this row can be written: nothing before that step raises. */
  predicate Copyable(w: Worktree, denied: string -> bool, copies: Directory, row: RollbackRow) {
    && row.recorded.Some?
    && !denied(row.path)
    && CopyIntact(copies, row)
    && forall a :: a in Ancestors(row.path) ==> a !in w.files
  }

  /** One row of the rollback manifest. */
  function RestoreRow(w: Worktree, denied: string -> bool, copies: Directory, row: RollbackRow, temp: string): Outcome {
    if denied(row.path) then Broken(w)
    else if row.recorded.Some? then
      if !Copyable(w, denied, copies, row) then Broken(w)
      else if row.path in w.dirs + Ancestors(row.path) then
        Broken(WithTemporary(w, row.path, temp, row.recorded.value))
      else
        Done(Worktree(w.files[row.path := Regular(row.recorded.value)], w.dirs + Ancestors(row.path)))
    else if row.path in w.files then
      if w.files[row.path].Regular? then Done(w.(files := w.files - {row.path})) else Broken(w)
    else if row.path in w.dirs then Broken(w)
    else Done(w)
  }

  /** The first n rows, in manifest order. */
  function RestoreUpTo(w: Worktree, denied: string -> bool, s: Snapshot, temps: nat -> string, n: nat): Outcome
    requires n <= |s.rows|
  {
    if n == 0 then Done(w)
    else
      match RestoreUpTo(w, denied, s, temps, n - 1)
      case Broken(v) => Broken(v)
      case Done(v) => RestoreRow(v, denied, s.copies, s.rows[n - 1], temps(n - 1))
  }

  function RestoreAll(w: Worktree, denied: string -> bool, s: Snapshot, temps: nat -> string): Outcome {
    RestoreUpTo(w, denied, s, temps, |s.rows|)
  }

  // -------------------------------------------------------------- exactness

  /** Directories and files as a file system keeps them. */
  ghost predicate WellFormed(w: Worktree) {
    && w.files.Keys !! w.dirs
    && forall p :: p in w.files ==> Ancestors(p) <= w.dirs
  }

  /**
   The worktree w differs from w0 at most at the listed paths and by the extra
   files named in junk.
   */
  ghost predicate Drift(w: Worktree, w0: Worktree, paths: seq<string>, junk: set<string>) {
    && (forall p :: p !in paths && p !in junk ==> Get(w.files, p) == Get(w0.files, p))
    && (forall p :: p in paths && p in w.files ==> w.files[p].Regular?)
    && (forall j :: j in junk ==> j in w.files && j !in w0.files)
  }

  ghost predicate JunkApart(paths: seq<string>, junk: set<string>) {
    forall j :: j in junk ==> j !in paths && forall p :: p in paths ==> !Inside(j, p)
  }

  ghost predicate NoSpecial(w0: Worktree, paths: seq<string>) {
    forall p :: p in paths && p in w0.files ==> w0.files[p].Regular?
  }

  ghost predicate Setting(w0: Worktree, paths: seq<string>, junk: set<string>) {
    WellFormed(w0) && StrictlySorted(paths) && NoSpecial(w0, paths) && JunkApart(paths, junk)
  }

  /** What the first n rows achieve: their paths are as in w0, the others as in w. */
  ghost predicate Progress(v: Worktree, w: Worktree, w0: Worktree, paths: seq<string>, n: nat)
    requires n <= |paths|
  {
    && (forall p :: p !in paths ==> Get(v.files, p) == Get(w.files, p))
    && (forall i :: 0 <= i < n ==> Get(v.files, paths[i]) == Get(w0.files, paths[i]))
    && (forall i :: n <= i < |paths| ==> Get(v.files, paths[i]) == Get(w.files, paths[i]))
    && w.dirs <= v.dirs
    && (forall d :: d in v.dirs ==> d in w.dirs || exists i :: 0 <= i < n && Inside(d, paths[i]))
  }

  lemma SnapshotRow(w0: Worktree, paths: seq<string>, i: nat)
    requires i < |paths| && NoSpecial(w0, paths)
    ensures var s := SnapshotOf(w0, paths);
            && i < |s.rows| && s.rows[i].path == paths[i] && CopyIntact(s.copies, s.rows[i])
            && (s.rows[i].recorded.Some? <==> paths[i] in w0.files)
            && (s.rows[i].recorded.Some? ==> Get(w0.files, paths[i]) == Some(Regular(s.rows[i].recorded.value)))
  {
    assert paths[i] in paths;
  }

  /** No ancestor of a file to restore is a file when its row is reached. */
  lemma AncestorsFree(v: Worktree, w: Worktree, w0: Worktree, paths: seq<string>, junk: set<string>, n: nat)
    requires Setting(w0, paths, junk) && Drift(w, w0, paths, junk) && n < |paths| && Progress(v, w, w0, paths, n)
    requires paths[n] in w0.files
    ensures forall a :: a in Ancestors(paths[n]) ==> a !in v.files
  {
    forall a | a in Ancestors(paths[n]) ensures a !in v.files {
      assert a in w0.dirs;
      assert Get(w0.files, a) == None;
      InsideSortsLater(a, paths[n]);
      if a in paths {
        var i: nat :| i < |paths| && paths[i] == a;
        SortedPlaces(paths, i, n);
        assert Get(v.files, paths[i]) == Get(w0.files, paths[i]);
      } else {
        assert a !in junk;
        assert Get(v.files, a) == Get(w.files, a) == Get(w0.files, a);
      }
    }
  }

  /** No path still to be treated has become a directory. */
  lemma LaterNotDirectory(v: Worktree, w: Worktree, w0: Worktree, paths: seq<string>, n: nat)
    requires StrictlySorted(paths) && n < |paths| && Progress(v, w, w0, paths, n)
    requires paths[n] !in w.dirs
    ensures paths[n] !in v.dirs
  {
    forall i | 0 <= i < n ensures !Inside(paths[n], paths[i]) {
      if Inside(paths[n], paths[i]) {
        InsideSortsLater(paths[n], paths[i]);
        SortedPlaces(paths, n, i);
        assert false;
      }
    }
  }

  lemma RowProgress(v: Worktree, w: Worktree, w0: Worktree, paths: seq<string>, junk: set<string>,
                    denied: string -> bool, temp: string, n: nat)
    requires Setting(w0, paths, junk) && Drift(w, w0, paths, junk) && n < |paths| && Progress(v, w, w0, paths, n)
    requires paths[n] !in w.dirs && !denied(paths[n])
    ensures var s := SnapshotOf(w0, paths);
            var r := RestoreRow(v, denied, s.copies, s.rows[n], temp);
            r.Done? && Progress(r.w, w, w0, paths, n + 1)
  {
    SnapshotRow(w0, paths, n);
    LaterNotDirectory(v, w, w0, paths, n);
    if paths[n] in w0.files { AncestorsFree(v, w, w0, paths, junk, n); }
    RowIsRegular(v, w, w0, paths, junk, n);
    SettingSorted(w0, paths, junk);
    hide Setting, Drift, StrictlySorted, SnapshotOf, Progress;
    var s := SnapshotOf(w0, paths);
    var r := RestoreRow(v, denied, s.copies, s.rows[n], temp);
    assert Get(r.w.files, paths[n]) == Get(w0.files, paths[n]);
    assert forall p :: p != paths[n] ==> Get(r.w.files, p) == Get(v.files, p);
    hide RestoreRow;
    NextProgress(v, r.w, w, w0, paths, n);
  }

  lemma SettingSorted(w0: Worktree, paths: seq<string>, junk: set<string>)
    requires Setting(w0, paths, junk)
    ensures StrictlySorted(paths)
  {
  }

  lemma RowIsRegular(v: Worktree, w: Worktree, w0: Worktree, paths: seq<string>, junk: set<string>, n: nat)
    requires Drift(w, w0, paths, junk) && n < |paths| && Progress(v, w, w0, paths, n)
    ensures paths[n] in v.files ==> v.files[paths[n]].Regular?
  {
    assert Get(v.files, paths[n]) == Get(w.files, paths[n]);
    assert paths[n] in paths;
  }

  /** One more row done, nothing else touched. */
  lemma NextProgress(v: Worktree, u: Worktree, w: Worktree, w0: Worktree, paths: seq<string>, n: nat)
    requires StrictlySorted(paths) && n < |paths| && Progress(v, w, w0, paths, n)
    requires Get(u.files, paths[n]) == Get(w0.files, paths[n])
    requires forall p :: p != paths[n] ==> Get(u.files, p) == Get(v.files, p)
    requires u.dirs == v.dirs || u.dirs == v.dirs + Ancestors(paths[n])
    ensures Progress(u, w, w0, paths, n + 1)
  {
    assert paths[n] in paths;
    forall i | 0 <= i < |paths| && i != n ensures paths[i] != paths[n] {
      if i < n { SortedDistinct(paths, i, n); } else { SortedDistinct(paths, n, i); }
    }
    hide StrictlySorted, Get;
  }

  lemma NoProgress(w: Worktree, w0: Worktree, paths: seq<string>)
    ensures Progress(w, w, w0, paths, 0)
  {
  }

  lemma SnapshotLength(w0: Worktree, paths: seq<string>)
    ensures |SnapshotOf(w0, paths).rows| == |paths|
  {
  }

  lemma {:induction false} RestoreProgress(w: Worktree, w0: Worktree, paths: seq<string>, junk: set<string>,
                                           denied: string -> bool, temps: nat -> string, n: nat)
    requires Setting(w0, paths, junk) && Drift(w, w0, paths, junk) && n <= |paths|
    requires forall i :: 0 <= i < n ==> paths[i] !in w.dirs && !denied(paths[i])
    ensures var r := RestoreUpTo(w, denied, SnapshotOf(w0, paths), temps, n);
            r.Done? && Progress(r.w, w, w0, paths, n)
  {
    hide Setting, Drift, Progress, RestoreRow, SnapshotOf;
    NoProgress(w, w0, paths);
    SnapshotLength(w0, paths);
    if n > 0 {
      RestoreProgress(w, w0, paths, junk, denied, temps, n - 1);
      var v := RestoreUpTo(w, denied, SnapshotOf(w0, paths), temps, n - 1).w;
      RowProgress(v, w, w0, paths, junk, denied, temps(n - 1), n - 1);
    }
  }

  /** Whatever happens, a restore writes only the listed paths and its own temporary names, and removes no directory. */
  lemma {:induction false} RestoreWritesOnly(w: Worktree, denied: string -> bool, s: Snapshot, temps: nat -> string,
                                             n: nat)
    requires n <= |s.rows|
    ensures var r := RestoreUpTo(w, denied, s, temps, n);
            && w.dirs <= r.w.dirs
            && (forall q :: (forall i :: 0 <= i < n ==> q != s.rows[i].path && (r.Done? || q != temps(i))) ==>
                  Get(r.w.files, q) == Get(w.files, q))
  {
    if n > 0 {
      RestoreWritesOnly(w, denied, s, temps, n - 1);
    }
  }

  /** A listed path that is a directory, or denied, stops the restore. */
  lemma {:induction false} RestoreBlocked(w: Worktree, w0: Worktree, paths: seq<string>, denied: string -> bool,
                                          temps: nat -> string, k: nat, n: nat)
    requires NoSpecial(w0, paths) && StrictlySorted(paths) && k < n <= |paths|
    requires w.files.Keys !! w.dirs
    requires paths[k] in w.dirs || denied(paths[k])
    ensures RestoreUpTo(w, denied, SnapshotOf(w0, paths), temps, n).Broken?
    decreases n
  {
    if k < n - 1 {
      RestoreBlocked(w, w0, paths, denied, temps, k, n - 1);
    } else {
      var s := SnapshotOf(w0, paths);
      var r := RestoreUpTo(w, denied, s, temps, k);
      if r.Done? {
        RestoreWritesOnly(w, denied, s, temps, k);
        forall i | 0 <= i < k ensures s.rows[i].path != paths[k] {
          SnapshotRow(w0, paths, i);
          SortedDistinct(paths, i, k);
        }
        SnapshotRow(w0, paths, k);
        assert Get(r.w.files, paths[k]) == Get(w.files, paths[k]);
      }
    }
  }

  lemma GetExtensional(a: Tree, b: Tree)
    requires forall p :: Get(a, p) == Get(b, p)
    ensures a == b
  {
    forall p ensures (p in a <==> p in b) && (p in a && p in b ==> a[p] == b[p]) {
      assert Get(a, p) == Get(b, p);
    }
  }

  /**
   A complete restore of a worktree that changed at most at the listed paths
   succeeds exactly when none of those paths is a directory now or denied, and
   then gives back every file; it writes nothing else but its temporary names.
   */
  lemma RestoreExact(w: Worktree, w0: Worktree, paths: seq<string>, denied: string -> bool, temps: nat -> string)
    requires Setting(w0, paths, {}) && Drift(w, w0, paths, {}) && w.files.Keys !! w.dirs
    ensures var r := RestoreAll(w, denied, SnapshotOf(w0, paths), temps);
            && (r.Done? <==> forall p :: p in paths ==> p !in w.dirs && !denied(p))
            && (r.Done? ==> r.w.files == w0.files)
            && (forall q :: q !in paths && (forall i: nat :: q != temps(i)) ==> Get(r.w.files, q) == Get(w0.files, q))
  {
    var s := SnapshotOf(w0, paths);
    var r := RestoreAll(w, denied, s, temps);
    if forall p :: p in paths ==> p !in w.dirs && !denied(p) {
      RestoreProgress(w, w0, paths, {}, denied, temps, |paths|);
      forall p ensures Get(r.w.files, p) == Get(w0.files, p) {
        if p in paths { var i :| 0 <= i < |paths| && paths[i] == p; }
      }
      GetExtensional(r.w.files, w0.files);
    } else {
      var p :| p in paths && (p in w.dirs || denied(p));
      var k: nat :| k < |paths| && paths[k] == p;
      RestoreBlocked(w, w0, paths, denied, temps, k, |paths|);
    }
    RestoreWritesOnly(w, denied, s, temps, |s.rows|);
    forall q | q !in paths && (forall i: nat :: q != temps(i)) ensures Get(r.w.files, q) == Get(w0.files, q) {
      forall i | 0 <= i < |s.rows| ensures q != s.rows[i].path {
        SnapshotRow(w0, paths, i);
      }
      assert Get(w.files, q) == Get(w0.files, q);
    }
  }

  // ----------------------------------------------------- interrupted restores

  /**
   A crash after `done` rows; `leftover` names the temporary copy of the next row
   when the crash falls between writing it and renaming it over the target.
   */
  datatype Crash = Crash(done: nat, leftover: Option<string>)

  function RowsDone(s: Snapshot, c: Crash): (n: nat)
    ensures n <= |s.rows|
  {
    if c.done < |s.rows| then c.done else |s.rows|
  }

  /** The crash leaves a temporary copy behind. */
  predicate LeavesTemporary(w: Worktree, denied: string -> bool, s: Snapshot, temps: nat -> string, c: Crash) {
    var n := RowsDone(s, c);
    var r := RestoreUpTo(w, denied, s, temps, n);
    r.Done? && c.leftover.Some? && n < |s.rows| && Copyable(r.w, denied, s.copies, s.rows[n])
  }

  function CrashState(w: Worktree, denied: string -> bool, s: Snapshot, temps: nat -> string, c: Crash): Outcome {
    var n := RowsDone(s, c);
    var r := RestoreUpTo(w, denied, s, temps, n);
    if LeavesTemporary(w, denied, s, temps, c) then
      Done(WithTemporary(r.w, s.rows[n].path, c.leftover.value, s.rows[n].recorded.value))
    else r
  }

  /** No listed path lies inside another one. */
  ghost predicate Flat(paths: seq<string>) {
    forall p, q :: p in paths && q in paths ==> !Inside(p, q)
  }

  ghost predicate NoneBlocked(w: Worktree, paths: seq<string>, denied: string -> bool) {
    forall p :: p in paths ==> p !in w.dirs && !denied(p)
  }

  /** A name that uuid4 picked: used nowhere in the captured tree or the manifest. */
  ghost predicate FreshName(name: string, w0: Worktree, paths: seq<string>) {
    name !in w0.files && name !in paths && forall p :: p in paths ==> !Inside(name, p)
  }

  /** After an interrupted restore the worktree still differs only at the listed paths and by temporary copies. */
  lemma CrashKeepsDrift(w: Worktree, w0: Worktree, paths: seq<string>, junk: set<string>, denied: string -> bool,
                        temps: nat -> string, c: Crash) returns (more: set<string>)
    requires Setting(w0, paths, junk) && Flat(paths) && Drift(w, w0, paths, junk) && NoneBlocked(w, paths, denied)
    requires c.leftover.Some? ==> FreshName(c.leftover.value, w0, paths)
    ensures var s := SnapshotOf(w0, paths); var r := CrashState(w, denied, s, temps, c);
            && r.Done? && Setting(w0, paths, more) && Drift(r.w, w0, paths, more) && NoneBlocked(r.w, paths, denied)
            && more == if LeavesTemporary(w, denied, s, temps, c) then junk + {c.leftover.value} else junk
  {
    var s := SnapshotOf(w0, paths);
    var n := RowsDone(s, c);
    RestoreProgress(w, w0, paths, junk, denied, temps, n);
    var v := RestoreUpTo(w, denied, s, temps, n).w;
    ProgressKeepsDrift(v, w, w0, paths, junk, denied, n);
    more := junk;
    if LeavesTemporary(w, denied, s, temps, c) {
      more := junk + {c.leftover.value};
      SnapshotRow(w0, paths, n);
      TemporaryKeepsDrift(v, w0, paths, junk, denied, paths[n], c.leftover.value, s.rows[n].recorded.value);
    }
  }

  lemma ProgressKeepsDrift(v: Worktree, w: Worktree, w0: Worktree, paths: seq<string>, junk: set<string>,
                           denied: string -> bool, n: nat)
    requires Setting(w0, paths, junk) && Flat(paths) && Drift(w, w0, paths, junk) && NoneBlocked(w, paths, denied)
    requires n <= |paths| && Progress(v, w, w0, paths, n)
    ensures Drift(v, w0, paths, junk) && NoneBlocked(v, paths, denied)
  {
    forall p | p in paths
      ensures p in v.files ==> v.files[p].Regular?
      ensures p !in v.dirs
    {
      var i: nat :| i < |paths| && paths[i] == p;
      assert Get(v.files, p) == Get(w0.files, p) || Get(v.files, p) == Get(w.files, p);
      forall k | 0 <= k < n ensures !Inside(p, paths[k]) {
        assert paths[k] in paths;
      }
    }
    forall j | j in junk ensures j in v.files {
      assert Get(v.files, j) == Get(w.files, j);
    }
  }

  lemma TemporaryKeepsDrift(v: Worktree, w0: Worktree, paths: seq<string>, junk: set<string>, denied: string -> bool,
                            target: string, temp: string, file: File)
    requires Setting(w0, paths, junk) && Flat(paths) && Drift(v, w0, paths, junk) && NoneBlocked(v, paths, denied)
    requires target in paths && FreshName(temp, w0, paths)
    ensures var u := WithTemporary(v, target, temp, file);
            && Setting(w0, paths, junk + {temp}) && Drift(u, w0, paths, junk + {temp}) && NoneBlocked(u, paths, denied)
  {
  }

  // ------------------------------------------- any snapshot, any worktree

  /** A path whose row is done: as recorded, from an intact copy, and nothing but a regular file was removed for it. */
  ghost predicate RowHonoured(w: Worktree, v: Worktree, denied: string -> bool, copies: Directory, row: RollbackRow) {
    && !denied(row.path)
    && (row.recorded != None ==>
          row.path in copies && copies[row.path] == row.recorded.value
          && Get(v.files, row.path) == Some(Regular(row.recorded.value)))
    && (row.recorded == None ==>
          Get(v.files, row.path) == None && (row.path in w.files ==> w.files[row.path].Regular?))
  }

  /**
   Whatever the snapshot and the worktree hold: rows that a restore reports done were
   honoured, from copies that agree with their hashes, past no denied path and no
   symlink, no other path was touched, and directories are there for every file.
   */
  lemma {:induction false} DoneMeansHonoured(w: Worktree, denied: string -> bool, s: Snapshot, temps: nat -> string,
                                            n: nat)
    requires n <= |s.rows| && forall i, j :: 0 <= i < j < |s.rows| ==> s.rows[i].path != s.rows[j].path
    requires RestoreUpTo(w, denied, s, temps, n).Done?
    ensures var v := RestoreUpTo(w, denied, s, temps, n).w;
            && (forall i :: 0 <= i < n ==> RowHonoured(w, v, denied, s.copies, s.rows[i]))
            && (forall p :: (forall i :: 0 <= i < n ==> s.rows[i].path != p) ==> Get(v.files, p) == Get(w.files, p))
            && (WellFormed(w) ==> WellFormed(v))
  {
    hide WellFormed;
    if n > 0 {
      DoneMeansHonoured(w, denied, s, temps, n - 1);
      var u, v := RestoreUpTo(w, denied, s, temps, n - 1).w, RestoreUpTo(w, denied, s, temps, n).w;
      OneHonoured(u, denied, s.copies, s.rows[n - 1], temps(n - 1));
      assert Get(u.files, s.rows[n - 1].path) == Get(w.files, s.rows[n - 1].path);
      hide RestoreUpTo, RestoreRow;
      forall i | 0 <= i < n - 1 ensures RowHonoured(w, v, denied, s.copies, s.rows[i]) {
        assert RowHonoured(w, u, denied, s.copies, s.rows[i]);
        assert Get(v.files, s.rows[i].path) == Get(u.files, s.rows[i].path);
      }
    }
  }

  lemma OneHonoured(w: Worktree, denied: string -> bool, copies: Directory, row: RollbackRow, temp: string)
    requires RestoreRow(w, denied, copies, row, temp).Done?
    ensures var v := RestoreRow(w, denied, copies, row, temp).w;
            && RowHonoured(w, v, denied, copies, row)
            && (forall p :: p != row.path ==> Get(v.files, p) == Get(w.files, p))
            && (WellFormed(w) ==> WellFormed(v))
  {
  }

  /**
   A file to put back whose path has become a directory: the copy is made under its
   temporary name, the rename fails, and the restore ends there with the copy left.
   */
  lemma RenameOntoDirectory(w: Worktree, denied: string -> bool, s: Snapshot, temps: nat -> string, n: nat, m: nat)
    requires n < m <= |s.rows| && RestoreUpTo(w, denied, s, temps, n).Done?
    requires Copyable(RestoreUpTo(w, denied, s, temps, n).w, denied, s.copies, s.rows[n])
    requires s.rows[n].path in RestoreUpTo(w, denied, s, temps, n).w.dirs
    ensures var v, r := RestoreUpTo(w, denied, s, temps, n).w, RestoreUpTo(w, denied, s, temps, m);
            r.Broken? && r.w.files == v.files[temps(n) := Regular(s.rows[n].recorded.value)]
  {
    hide *;
    RenameFails(RestoreUpTo(w, denied, s, temps, n).w, denied, s.copies, s.rows[n], temps(n));
    NextRow(w, denied, s, temps, n);
    BrokenStays(w, denied, s, temps, n + 1, m);
  }

  lemma NextRow(w: Worktree, denied: string -> bool, s: Snapshot, temps: nat -> string, n: nat)
    requires n < |s.rows| && RestoreUpTo(w, denied, s, temps, n).Done?
    ensures RestoreUpTo(w, denied, s, temps, n + 1) ==
            RestoreRow(RestoreUpTo(w, denied, s, temps, n).w, denied, s.copies, s.rows[n], temps(n))
  {
    hide RestoreRow;
  }

  lemma RenameFails(w: Worktree, denied: string -> bool, copies: Directory, row: RollbackRow, temp: string)
    requires Copyable(w, denied, copies, row) && row.path in w.dirs
    ensures var r := RestoreRow(w, denied, copies, row, temp);
            r.Broken? && r.w.files == w.files[temp := Regular(row.recorded.value)]
  {
  }

  lemma {:induction false} BrokenStays(w: Worktree, denied: string -> bool, s: Snapshot, temps: nat -> string,
                                      n: nat, m: nat)
    requires n <= m <= |s.rows| && RestoreUpTo(w, denied, s, temps, n).Broken?
    ensures RestoreUpTo(w, denied, s, temps, m) == RestoreUpTo(w, denied, s, temps, n)
    decreases m
  {
    hide RestoreRow;
    if n < m { BrokenStays(w, denied, s, temps, n, m - 1); }
  }

  // ------------------------------------------------ reconciling after crashes

  datatype Verdict = ToCommitted | ToRolledBack | ToRecovery

  /** What a reconcile pass concludes for one row, without interruption; it never applies the patch. */
  function Reconciled(w: Worktree, before: Tree, after: Tree, denied: string -> bool, s: Snapshot,
                      temps: nat -> string): (Verdict, Worktree)
  {
    if w.files == after then (ToCommitted, w)
    else if w.files == before then (ToRolledBack, w)
    else
      match RestoreAll(w, denied, s, temps)
      case Broken(v) => (ToRecovery, v)
      case Done(v) => (if v.files == before then ToRolledBack else ToRecovery, v)
  }

  /** Passes interrupted by the given crashes, then one that completes. */
  function Settle(w: Worktree, before: Tree, after: Tree, denied: string -> bool, s: Snapshot,
                  temps: nat -> string, crashes: seq<Crash>): (Verdict, Worktree)
    decreases |crashes|
  {
    if crashes == [] then Reconciled(w, before, after, denied, s, temps)
    else if w.files == after || w.files == before then Settle(w, before, after, denied, s, temps, crashes[1..])
    else
      match CrashState(w, denied, s, temps, crashes[0])
      case Broken(v) => (ToRecovery, v)
      case Done(v) => Settle(v, before, after, denied, s, temps, crashes[1..])
  }

  /** One of the crashes falls between a temporary copy and its rename. */
  predicate SomeLeftover(w: Worktree, before: Tree, after: Tree, denied: string -> bool, s: Snapshot,
                         temps: nat -> string, crashes: seq<Crash>)
    decreases |crashes|
  {
    if crashes == [] then false
    else if w.files == after || w.files == before then SomeLeftover(w, before, after, denied, s, temps, crashes[1..])
    else
      || LeavesTemporary(w, denied, s, temps, crashes[0])
      || SomeLeftover(CrashState(w, denied, s, temps, crashes[0]).w, before, after, denied, s, temps, crashes[1..])
  }

  ghost predicate SettledCleanly(verdict: Verdict, w: Worktree, before: Tree, after: Tree) {
    (verdict == ToCommitted && w.files == after) || (verdict == ToRolledBack && w.files == before)
  }

  /** The same tree outside the listed paths. */
  ghost predicate SameOutside(before: Tree, after: Tree, paths: seq<string>) {
    forall p :: p !in paths ==> Get(before, p) == Get(after, p)
  }

  /** What a complete restore gives when no path is blocked: the captured files, and the temporary copies. */
  lemma RestoredFiles(w: Worktree, w0: Worktree, paths: seq<string>, junk: set<string>, denied: string -> bool,
                      temps: nat -> string)
    requires Setting(w0, paths, junk) && Drift(w, w0, paths, junk) && NoneBlocked(w, paths, denied)
    ensures var r := RestoreAll(w, denied, SnapshotOf(w0, paths), temps);
            && r.Done?
            && (forall p :: p !in junk ==> Get(r.w.files, p) == Get(w0.files, p))
            && (forall j :: j in junk ==> j in r.w.files && j in w.files && j !in w0.files)
  {
    hide Setting;
    RestoreProgress(w, w0, paths, junk, denied, temps, |paths|);
    SettingApart(w0, paths, junk);
    hide SnapshotOf, RestoreRow, RestoreUpTo;
    var u := RestoreAll(w, denied, SnapshotOf(w0, paths), temps).w;
    forall p | p !in junk ensures Get(u.files, p) == Get(w0.files, p) {
      if p in paths { var i :| 0 <= i < |paths| && paths[i] == p; }
    }
    forall j | j in junk ensures j in u.files {
      assert Get(u.files, j) == Get(w.files, j);
    }
  }

  lemma SettingApart(w0: Worktree, paths: seq<string>, junk: set<string>)
    requires Setting(w0, paths, junk)
    ensures forall j :: j in junk ==> j !in paths
  {
  }

  lemma ReconciledExact(w: Worktree, w0: Worktree, after: Tree, paths: seq<string>, junk: set<string>,
                        denied: string -> bool, temps: nat -> string)
    requires Setting(w0, paths, junk) && Drift(w, w0, paths, junk) && NoneBlocked(w, paths, denied)
    requires SameOutside(w0.files, after, paths)
    ensures var (verdict, u) := Reconciled(w, w0.files, after, denied, SnapshotOf(w0, paths), temps);
            && (junk == {} ==> SettledCleanly(verdict, u, w0.files, after))
            && (junk != {} ==> verdict == ToRecovery
                               && forall p :: p in w0.files ==> Get(u.files, p) == Get(w0.files, p))
  {
    SettingApart(w0, paths, junk);
    RestoredFiles(w, w0, paths, junk, denied, temps);
    hide Setting, Drift, NoneBlocked, RestoreAll, SnapshotOf;
    var u := RestoreAll(w, denied, SnapshotOf(w0, paths), temps).w;
    if junk == {} {
      GetExtensional(u.files, w0.files);
    } else {
      var j :| j in junk;
      assert Get(w0.files, j) == Get(after, j) == None;
      assert j in u.files && j in w.files;
    }
  }

  /**
   Any number of interrupted passes followed by a complete one ends in
   (committed, after) or (rolled back, before) exactly when no crash left a
   temporary copy behind; with one left behind the row needs recovery, although
   every original file is back.
   */
  lemma {:induction false} SettleExact(w: Worktree, w0: Worktree, after: Tree, paths: seq<string>, junk: set<string>,
                                       denied: string -> bool, temps: nat -> string, crashes: seq<Crash>)
    requires Setting(w0, paths, junk) && Flat(paths) && Drift(w, w0, paths, junk) && NoneBlocked(w, paths, denied)
    requires SameOutside(w0.files, after, paths)
    requires forall c :: c in crashes && c.leftover.Some? ==> FreshName(c.leftover.value, w0, paths)
    ensures var s := SnapshotOf(w0, paths);
            var (verdict, u) := Settle(w, w0.files, after, denied, s, temps, crashes);
            var dirty := junk != {} || SomeLeftover(w, w0.files, after, denied, s, temps, crashes);
            && (!dirty ==> SettledCleanly(verdict, u, w0.files, after))
            && (dirty ==> verdict == ToRecovery && forall p :: p in w0.files ==> Get(u.files, p) == Get(w0.files, p))
    decreases |crashes|
  {
    var s := SnapshotOf(w0, paths);
    if crashes == [] {
      ReconciledExact(w, w0, after, paths, junk, denied, temps);
    } else if w.files == after || w.files == w0.files {
      SettleExact(w, w0, after, paths, junk, denied, temps, crashes[1..]);
    } else {
      var more := CrashKeepsDrift(w, w0, paths, junk, denied, temps, crashes[0]);
      var v := CrashState(w, denied, s, temps, crashes[0]).w;
      SettleExact(v, w0, after, paths, more, denied, temps, crashes[1..]);
    }
  }

  /**
   The condition on directories is needed: when a change set turns the directory a
   into a file and the commit stops after touching only c, the restore refuses.
   */
  lemma DirectoryTurnedFile(denied: string -> bool, temps: nat -> string, x: File, y: File, z: File)
    requires y != z && forall p :: !denied(p)
    ensures var before: Tree := map["a/b" := Regular(x), "c" := Regular(y)];
            var after: Tree := map["a" := Regular(x), "c" := Regular(y)];
            var w := Worktree(map["a/b" := Regular(x), "c" := Regular(z)], {"a"});
            var s := SnapshotOf(Worktree(before, {"a"}), ["a", "a/b", "c"]);
            Reconciled(w, before, after, denied, s, temps).0 == ToRecovery
  {
    var before: Tree := map["a/b" := Regular(x), "c" := Regular(y)];
    var after: Tree := map["a" := Regular(x), "c" := Regular(y)];
    var w := Worktree(map["a/b" := Regular(x), "c" := Regular(z)], {"a"});
    var w0 := Worktree(before, {"a"});
    var paths := ["a", "a/b", "c"];
    assert w.files["c"] == Regular(z);
    assert "a" !in w.files;
    assert Less("a", "a/b") by { assert "a/b"[0] == 'a'; assert Less("a"[1..], "a/b"[1..]); }
    assert Less("a/b", "c") && Less("a", "c");
    RestoreBlocked(w, w0, paths, denied, temps, 0, 3);
  }
}
