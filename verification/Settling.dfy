/**
 For which manifests recovery always settles: the exact condition on the listed
 paths under which every worktree that a partial apply may leave ends as one of
 the two trees, however often recovery is interrupted.
 */
module Settling {
  import opened Common
  import opened Paths
  import opened Trees
  import opened Restore

  /** In a tree no file lies inside another one. */
  ghost predicate Proper(t: Tree) {
    forall p, q :: p in t && q in t ==> !Inside(p, q)
  }

  /** A worktree that an apply stopped anywhere may leave: it wrote listed paths and made directories for them. */
  ghost predicate Partial(v: Worktree, w0: Worktree, paths: seq<string>) {
    && WellFormed(v) && Drift(v, w0, paths, {})
    && forall d :: d in v.dirs ==> d in w0.dirs || exists i :: 0 <= i < |paths| && Inside(d, paths[i])
  }

  /**
   No listed path is denied; with two or more, none lies inside another and none is a
   directory of the captured worktree.
   */
  ghost predicate Settleable(w0: Worktree, paths: seq<string>, denied: string -> bool) {
    && (forall p :: p in paths ==> !denied(p))
    && (|paths| <= 1 || (Flat(paths) && forall p :: p in paths ==> p !in w0.dirs))
  }

  /** No crash falls between a temporary copy and its rename. */
  ghost predicate Tidy(crashes: seq<Crash>) {
    forall c :: c in crashes ==> c.leftover.None?
  }

  ghost predicate Settles(v: Worktree, w0: Worktree, after: Tree, paths: seq<string>, denied: string -> bool,
                          temps: nat -> string, crashes: seq<Crash>)
  {
    var (verdict, u) := Settle(v, w0.files, after, denied, SnapshotOf(w0, paths), temps, crashes);
    SettledCleanly(verdict, u, w0.files, after)
  }

  ghost predicate AlwaysSettles(w0: Worktree, after: Tree, paths: seq<string>, denied: string -> bool) {
    forall v, temps, crashes :: Partial(v, w0, paths) && Tidy(crashes) ==>
      Settles(v, w0, after, paths, denied, temps, crashes)
  }

  /** What a manifest says about the two trees it was made from. */
  ghost predicate Lists(w0: Worktree, after: Tree, paths: seq<string>) {
    && Setting(w0, paths, {}) && SameOutside(w0.files, after, paths)
    && forall p :: p in paths ==> Get(w0.files, p) != Get(after, p)
  }

  // ------------------------------------------------------ where it always settles

  lemma {:induction false} TidyLeavesNothing(w: Worktree, before: Tree, after: Tree, denied: string -> bool,
                                             s: Snapshot,
                                             temps: nat -> string, crashes: seq<Crash>)
    requires Tidy(crashes)
    ensures !SomeLeftover(w, before, after, denied, s, temps, crashes)
    decreases |crashes|
  {
    if crashes != [] {
      assert crashes[0] in crashes;
      var next := if w.files == after || w.files == before then w else CrashState(w, denied, s, temps, crashes[0]).w;
      TidyLeavesNothing(next, before, after, denied, s, temps, crashes[1..]);
    }
  }

  /** A single listed path that was a directory: whatever stands there, removing it gives back the captured tree. */
  lemma {:induction false} OnePathSettles(v: Worktree, w0: Worktree, after: Tree, p: string, denied: string -> bool,
                                          temps: nat -> string, crashes: seq<Crash>)
    requires p !in w0.files && !denied(p) && Drift(v, w0, [p], {})
    ensures Settles(v, w0, after, [p], denied, temps, crashes)
    ensures !SomeLeftover(v, w0.files, after, denied, SnapshotOf(w0, [p]), temps, crashes)
    decreases |crashes|
  {
    var s := SnapshotOf(w0, [p]);
    assert s.rows == [RollbackRow(p, None)];
    OnePathRestored(v, w0, p, denied, s, temps);
    if crashes != [] {
      if v.files == after || v.files == w0.files {
        OnePathSettles(v, w0, after, p, denied, temps, crashes[1..]);
      } else {
        var u := CrashState(v, denied, s, temps, crashes[0]).w;
        OnePathSettles(u, w0, after, p, denied, temps, crashes[1..]);
      }
    }
  }

  lemma OnePathRestored(v: Worktree, w0: Worktree, p: string, denied: string -> bool, s: Snapshot, temps: nat -> string)
    requires p !in w0.files && !denied(p) && Drift(v, w0, [p], {}) && s.rows == [RollbackRow(p, None)]
    ensures v.files == w0.files || RestoreAll(v, denied, s, temps) == Done(v.(files := w0.files))
    ensures RestoreUpTo(v, denied, s, temps, 0) == Done(v)
    ensures !Copyable(v, denied, s.copies, s.rows[0])
  {
    if p in v.files {
      assert p in [p];
      GetExtensional(v.files - {p}, w0.files);
      assert RestoreUpTo(v, denied, s, temps, 1) == RestoreRow(v, denied, s.copies, s.rows[0], temps(0));
    } else {
      forall q ensures Get(v.files, q) == Get(w0.files, q) {}
      GetExtensional(v.files, w0.files);
    }
  }

  lemma UnblockedSettles(v: Worktree, w0: Worktree, after: Tree, paths: seq<string>, denied: string -> bool,
                         temps: nat -> string, crashes: seq<Crash>)
    requires Lists(w0, after, paths) && Flat(paths) && NoneBlocked(w0, paths, denied)
    requires Partial(v, w0, paths) && Tidy(crashes)
    ensures Settles(v, w0, after, paths, denied, temps, crashes)
  {
    var s := SnapshotOf(w0, paths);
    forall p | p in paths ensures p !in v.dirs {
      forall i | 0 <= i < |paths| ensures !Inside(p, paths[i]) {
        assert paths[i] in paths;
      }
    }
    TidyLeavesNothing(v, w0.files, after, denied, s, temps, crashes);
    SettleExact(v, w0, after, paths, {}, denied, temps, crashes);
  }

  lemma SettleableSettles(v: Worktree, w0: Worktree, after: Tree, paths: seq<string>, denied: string -> bool,
                          temps: nat -> string, crashes: seq<Crash>)
    requires Lists(w0, after, paths) && Settleable(w0, paths, denied) && Partial(v, w0, paths) && Tidy(crashes)
    ensures Settles(v, w0, after, paths, denied, temps, crashes)
  {
    if |paths| == 1 && paths[0] in w0.dirs {
      assert paths == [paths[0]] && paths[0] in paths;
      OnePathSettles(v, w0, after, paths[0], denied, temps, crashes);
    } else {
      ShortIsFlat(paths);
      UnblockedSettles(v, w0, after, paths, denied, temps, crashes);
    }
  }

  lemma ShortIsFlat(paths: seq<string>)
    ensures |paths| <= 1 ==> Flat(paths)
  {
  }

  // ------------------------------------------------------------ where it gets stuck

  /** Neither tree, and a listed path that no restore gets past. */
  ghost predicate Stuck(v: Worktree, w0: Worktree, after: Tree, paths: seq<string>, denied: string -> bool) {
    && Partial(v, w0, paths) && v.files != w0.files && v.files != after
    && exists k :: 0 <= k < |paths| && (paths[k] in v.dirs || denied(paths[k]))
  }

  lemma StuckNeedsRecovery(v: Worktree, w0: Worktree, after: Tree, paths: seq<string>, denied: string -> bool,
                           temps: nat -> string)
    requires Setting(w0, paths, {}) && Stuck(v, w0, after, paths, denied)
    ensures Settle(v, w0.files, after, denied, SnapshotOf(w0, paths), temps, []).0 == ToRecovery
  {
    var k: nat :| k < |paths| && (paths[k] in v.dirs || denied(paths[k]));
    RestoreBlocked(v, w0, paths, denied, temps, k, |paths|);
  }

  function ModeOf(e: Option<Entry>): int {
    if e.Some? && e.value.Regular? then e.value.file.mode else 0
  }

  /** A file that is neither of two entries. */
  function Third(a: Option<Entry>, b: Option<Entry>): (f: File)
    ensures Some(Regular(f)) != a && Some(Regular(f)) != b
  {
    File("", if ModeOf(a) < ModeOf(b) then ModeOf(b) + 1 else ModeOf(a) + 1)
  }

  /** A listed file with some third content. */
  lemma Overwritten(w0: Worktree, after: Tree, paths: seq<string>, q: string) returns (v: Worktree)
    requires Lists(w0, after, paths) && q in paths && q in w0.files
    ensures Partial(v, w0, paths) && v.files != w0.files && v.files != after && v.dirs == w0.dirs
  {
    var x := Third(Get(w0.files, q), Get(after, q));
    v := w0.(files := w0.files[q := Regular(x)]);
    assert Get(v.files, q) == Some(Regular(x));
  }

  /** A listed path, new in the after tree, written with some third content. */
  lemma Created(w0: Worktree, after: Tree, paths: seq<string>, q: string) returns (v: Worktree)
    requires Lists(w0, after, paths) && Proper(after) && q in paths
    requires forall p :: p in paths ==> p !in w0.files
    ensures Partial(v, w0, paths) && v.files != w0.files && v.files != after
    ensures forall d :: d in w0.dirs && d != q ==> d in v.dirs
  {
    var x := Third(Get(w0.files, q), Get(after, q));
    v := Worktree(w0.files[q := Regular(x)], (w0.dirs - {q}) + Ancestors(q));
    assert Get(v.files, q) == Some(Regular(x));
    assert q in after;
    forall f | f in w0.files ensures f in after && !Inside(f, q) && !Inside(q, f) {
      assert Get(w0.files, f) == Get(after, f);
    }
    var i :| 0 <= i < |paths| && paths[i] == q;
    forall d | d in v.dirs ensures d in w0.dirs || exists j :: 0 <= j < |paths| && Inside(d, paths[j]) {
      if d in Ancestors(q) { assert Inside(d, paths[i]); }
    }
  }

  lemma DeniedSticks(w0: Worktree, after: Tree, paths: seq<string>, denied: string -> bool, p: string)
      returns (v: Worktree)
    requires Lists(w0, after, paths) && Proper(after) && p in paths && denied(p)
    ensures Stuck(v, w0, after, paths, denied)
  {
    if q :| q in paths && q in w0.files {
      v := Overwritten(w0, after, paths, q);
    } else {
      v := Created(w0, after, paths, p);
    }
    var k :| 0 <= k < |paths| && paths[k] == p;
    assert denied(paths[k]);
  }

  /** A listed path is a directory, and the apply stops having touched only another one. */
  lemma DirectorySticks(w0: Worktree, after: Tree, paths: seq<string>, denied: string -> bool, p: string, q: string)
    returns (v: Worktree)
    requires Lists(w0, after, paths) && Proper(after) && p in paths && p in w0.dirs && q in paths && q != p
    ensures Stuck(v, w0, after, paths, denied)
  {
    if r :| r in paths && r in w0.files {
      v := Overwritten(w0, after, paths, r);
    } else {
      v := Created(w0, after, paths, q);
    }
    var k :| 0 <= k < |paths| && paths[k] == p;
    assert paths[k] in v.dirs;
  }

  /** A file turns into a directory, and the apply stops having removed the file and made the directory. */
  lemma NestedSticks(w0: Worktree, after: Tree, paths: seq<string>, denied: string -> bool, p: string, q: string)
    returns (v: Worktree)
    requires Lists(w0, after, paths) && Proper(after) && p in paths && q in paths && Inside(p, q) && p !in w0.dirs
    ensures Stuck(v, w0, after, paths, denied)
  {
    assert q in w0.files ==> p in w0.dirs by { assert p in Ancestors(q); }
    assert q in after && p !in after && p in w0.files;
    v := Worktree(w0.files - {p}, w0.dirs + {p});
    assert Get(v.files, p) == None && Get(v.files, q) == None;
    var k :| 0 <= k < |paths| && paths[k] == p;
    var i :| 0 <= i < |paths| && paths[i] == q;
    assert Inside(p, paths[i]);
    assert paths[k] in v.dirs;
  }

  lemma TwoPaths(paths: seq<string>, p: string) returns (q: string)
    requires StrictlySorted(paths) && |paths| >= 2 && p in paths
    ensures q in paths && q != p
  {
    SortedDistinct(paths, 0, 1);
    q := if paths[0] == p then paths[1] else paths[0];
  }

  lemma NotSettleableSticks(w0: Worktree, after: Tree, paths: seq<string>, denied: string -> bool) returns (v: Worktree)
    requires Lists(w0, after, paths) && Proper(after) && !Settleable(w0, paths, denied)
    ensures Stuck(v, w0, after, paths, denied)
  {
    hide Lists, Stuck;
    if p :| p in paths && denied(p) {
      v := DeniedSticks(w0, after, paths, denied, p);
    } else if p :| p in paths && p in w0.dirs {
      ListsSorted(w0, after, paths);
      var q := TwoPaths(paths, p);
      v := DirectorySticks(w0, after, paths, denied, p, q);
    } else {
      var p, q :| p in paths && q in paths && Inside(p, q);
      v := NestedSticks(w0, after, paths, denied, p, q);
    }
  }

  lemma ListsSorted(w0: Worktree, after: Tree, paths: seq<string>)
    requires Lists(w0, after, paths)
    ensures StrictlySorted(paths)
  {
  }

  /**
   Exactly when a manifest always settles.  From every worktree that a partial apply
   may leave and through any number of interrupted passes, recovery ends in
   (committed, after) or (rolled back, before) if and only if no listed path is
   denied and, unless there is only one, none lies inside another and none is a
   directory of the captured worktree.
   */
  lemma SettlesExactly(w0: Worktree, after: Tree, paths: seq<string>, denied: string -> bool)
    requires Lists(w0, after, paths) && Proper(after)
    ensures AlwaysSettles(w0, after, paths, denied) <==> Settleable(w0, paths, denied)
  {
    hide Settleable, Settles, Lists, Partial, Tidy, Stuck;
    if Settleable(w0, paths, denied) {
      forall v, temps, crashes | Partial(v, w0, paths) && Tidy(crashes)
        ensures Settles(v, w0, after, paths, denied, temps, crashes)
      {
        SettleableSettles(v, w0, after, paths, denied, temps, crashes);
      }
    } else {
      var v := NotSettleableSticks(w0, after, paths, denied);
      StuckNotSettled(v, w0, after, paths, denied, (n: nat) => "");
    }
  }

  lemma StuckNotSettled(v: Worktree, w0: Worktree, after: Tree, paths: seq<string>, denied: string -> bool,
                        temps: nat -> string)
    requires Lists(w0, after, paths) && Stuck(v, w0, after, paths, denied)
    ensures Partial(v, w0, paths) && Tidy([]) && !Settles(v, w0, after, paths, denied, temps, [])
  {
    hide Settle, Partial, Setting, SnapshotOf;
    StuckNeedsRecovery(v, w0, after, paths, denied, temps);
  }
}
