/**
 Captured file trees, the staging copy made from one, and the manifest of the
 files that differ between two.  A blob hash is modelled by the content itself.
 */
module Trees {
  import opened Common
  import opened Paths

  datatype File = File(content: string, mode: int)

  /** A regular file, or a symlink or submodule entry that change sets never touch. */
  datatype Entry = Regular(file: File) | Special(object: string)

  type Tree = map<string, Entry>

  /** The regular files under a directory. */
  type Directory = map<string, File>

  datatype ChangeType = Added | Modified | Deleted

  datatype FileRow = FileRow(path: string, change: ChangeType, before: Option<File>, after: Option<File>)

  /** What is written into the staging directory. */
  function Materialize(t: Tree): Directory {
    map p | p in t && t[p].Regular? :: t[p].file
  }

  function SpecialEntries(t: Tree): Tree {
    map p | p in t && t[p].Special? :: t[p]
  }

  /** The tree of a directory, with the special entries of the captured tree put back. */
  function Rebuild(base: Tree, directory: Directory): Tree {
    (map p | p in directory :: Regular(directory[p])) + SpecialEntries(base)
  }

  function Lookup(d: Directory, p: string): Option<File> {
    if p in d then Some(d[p]) else None
  }

  /** The paths whose regular entries differ. */
  function Changed(before: Tree, after: Tree): set<string> {
    set p | p in Materialize(before).Keys + Materialize(after).Keys
            && Lookup(Materialize(before), p) != Lookup(Materialize(after), p)
  }

  function RowOf(before: Tree, after: Tree, p: string): FileRow {
    var was := Lookup(Materialize(before), p);
    var now := Lookup(Materialize(after), p);
    FileRow(p, if was.None? then Added else if now.None? then Deleted else Modified, was, now)
  }

  function Rows(before: Tree, after: Tree, paths: seq<string>): (r: seq<FileRow>)
    ensures |r| == |paths| && forall i :: 0 <= i < |r| ==> r[i] == RowOf(before, after, paths[i])
  {
    seq(|paths|, i requires 0 <= i < |paths| => RowOf(before, after, paths[i]))
  }

  function PathsOf(rows: seq<FileRow>): (r: seq<string>)
    ensures |r| == |rows| && forall i :: 0 <= i < |r| ==> r[i] == rows[i].path
  {
    seq(|rows|, i requires 0 <= i < |rows| => rows[i].path)
  }

  /** One row for each file that differs, sorted by path. */
  ghost function ManifestOf(before: Tree, after: Tree): seq<FileRow> {
    Rows(before, after, Sorted(Changed(before, after)))
  }

  lemma ChangedWhenDifferent(before: Tree, after: Tree)
    ensures forall p :: p in Changed(before, after) <==>
              Lookup(Materialize(before), p) != Lookup(Materialize(after), p)
    ensures Changed(before, after) <= Materialize(before).Keys + Materialize(after).Keys
  {
  }

  /** The regular file at a path, if there is one. */
  function FileAt(t: Tree, p: string): Option<File> {
    if p in t && t[p].Regular? then Some(t[p].file) else None
  }

  /**
   What a manifest tells: the paths at which the regular files of two trees differ, in
   increasing order, each once, with the file before and the file after, and whether
   it was added, deleted or modified.
   */
  lemma ManifestTells(before: Tree, after: Tree)
    ensures var rows := ManifestOf(before, after);
            && (forall p :: FileAt(before, p) != FileAt(after, p) <==> exists i :: 0 <= i < |rows| && rows[i].path == p)
            && (forall i, j :: 0 <= i < j < |rows| ==> Less(rows[i].path, rows[j].path))
            && (forall i :: 0 <= i < |rows| ==>
                  var r := rows[i];
                  && r.before == FileAt(before, r.path) && r.after == FileAt(after, r.path)
                  && (r.change == Added <==> r.before == None)
                  && (r.change == Deleted <==> r.after == None)
                  && (r.change == Modified <==> r.before != None && r.after != None))
  {
    hide Sorted;
    var paths := Sorted(Changed(before, after));
    var rows := ManifestOf(before, after);
    forall p ensures Lookup(Materialize(before), p) == FileAt(before, p)
             ensures Lookup(Materialize(after), p) == FileAt(after, p) {
    }
    ChangedWhenDifferent(before, after);
    forall i | 0 <= i < |rows| ensures FileAt(before, rows[i].path) != FileAt(after, rows[i].path) {
      assert paths[i] in paths;
    }
    forall p | FileAt(before, p) != FileAt(after, p) ensures exists i :: 0 <= i < |rows| && rows[i].path == p {
      assert p in paths;
      var i :| 0 <= i < |paths| && paths[i] == p;
      assert rows[i].path == p;
    }
  }

  method Manifest(before: Tree, after: Tree) returns (files: seq<FileRow>)
    ensures files == ManifestOf(before, after)
  {
    var was, now := Materialize(before), Materialize(after);
    ChangedWhenDifferent(before, after);
    ghost var kept: seq<string> := [];
    assert Kept(kept, [], Changed(before, after));
    hide Changed, Materialize, StrictlySorted, Lookup, RowOf, Kept, Rows;
    var all := Sort(was.Keys + now.Keys);
    files := [];
    var i := 0;
    while i < |all|
      invariant 0 <= i <= |all|
      invariant files == Rows(before, after, kept)
      invariant Kept(kept, all[..i], Changed(before, after))
    {
      var path := all[i];
      KeepOne(kept, all, i, Changed(before, after));
      if Lookup(was, path) != Lookup(now, path) {
        files := files + [RowOf(before, after, path)];
        RowsAppend(before, after, kept, path);
        kept := kept + [path];
      }
      i := i + 1;
    }
    assert all[..i] == all;
    KeptAll(kept, all, Changed(before, after));
  }

  lemma RowsAppend(before: Tree, after: Tree, paths: seq<string>, p: string)
    ensures Rows(before, after, paths + [p]) == Rows(before, after, paths) + [RowOf(before, after, p)]
  {
  }

  /** The members of a list seen so far that are wanted, in order. */
  ghost predicate Kept(kept: seq<string>, seen: seq<string>, wanted: set<string>) {
    StrictlySorted(kept) && forall p :: p in kept <==> p in seen && p in wanted
  }

  lemma KeepOne(kept: seq<string>, all: seq<string>, i: nat, wanted: set<string>)
    requires i < |all| && StrictlySorted(all) && Kept(kept, all[..i], wanted)
    ensures Kept(if all[i] in wanted then kept + [all[i]] else kept, all[..i + 1], wanted)
  {
    assert all[..i + 1] == all[..i] + [all[i]];
    PickKeepsSorted(all, i, kept);
  }

  lemma KeptAll(kept: seq<string>, all: seq<string>, wanted: set<string>)
    requires Kept(kept, all, wanted) && forall p :: p in wanted ==> p in all
    ensures kept == Sorted(wanted)
  {
    SortedUnique(kept, Sorted(wanted));
  }

  /** Capturing a tree and rebuilding it from the untouched copy gives it back, special entries included. */
  lemma RebuildUntouched(t: Tree)
    ensures Rebuild(t, Materialize(t)) == t
  {
    var r := Rebuild(t, Materialize(t));
    forall p ensures (p in r <==> p in t) && (p in t ==> r[p] == t[p]) {
    }
  }

  /** Special entries survive whatever is staged, and nothing else of the staging copy is lost. */
  lemma RebuildKeepsSpecial(base: Tree, d: Directory)
    ensures SpecialEntries(Rebuild(base, d)) == SpecialEntries(base)
    ensures Materialize(Rebuild(base, d)) == d - SpecialEntries(base).Keys
  {
  }

  /** A path is in the manifest exactly when its regular entry differs, with the entries on both sides. */
  lemma ManifestRows(before: Tree, after: Tree, p: string)
    ensures p in PathsOf(ManifestOf(before, after)) <==> Lookup(Materialize(before), p) != Lookup(Materialize(after), p)
    ensures forall r :: r in ManifestOf(before, after) && r.path == p ==> r == RowOf(before, after, p)
  {
    var rows := ManifestOf(before, after);
    var paths := Sorted(Changed(before, after));
    assert PathsOf(rows) == paths;
    assert p in paths <==> p in Changed(before, after);
  }

  /** The manifest against a captured tree determines the regular files of the other tree. */
  lemma ManifestDetermines(before: Tree, after: Tree, other: Tree)
    requires ManifestOf(before, after) == ManifestOf(before, other)
    ensures Materialize(after) == Materialize(other)
  {
    forall p ensures Lookup(Materialize(after), p) == Lookup(Materialize(other), p) {
      ManifestRows(before, after, p);
      ManifestRows(before, other, p);
      var rows := ManifestOf(before, after);
      if p in PathsOf(rows) {
        var i :| 0 <= i < |rows| && rows[i].path == p;
        assert rows[i] == RowOf(before, after, p) == RowOf(before, other, p);
      }
    }
    LookupExtensional(Materialize(after), Materialize(other));
  }

  lemma LookupExtensional(a: Directory, b: Directory)
    requires forall p :: Lookup(a, p) == Lookup(b, p)
    ensures a == b
  {
    forall p ensures (p in a <==> p in b) && (p in a && p in b ==> a[p] == b[p]) {
      assert Lookup(a, p) == Lookup(b, p);
    }
  }

  /** A tree is its regular files and its special entries. */
  lemma TreeExtensional(a: Tree, b: Tree)
    requires Materialize(a) == Materialize(b) && SpecialEntries(a) == SpecialEntries(b)
    ensures a == b
  {
    forall p ensures (p in a <==> p in b) && (p in a && p in b ==> a[p] == b[p]) {
      assert p in a ==> p in Materialize(a) || p in SpecialEntries(a);
      assert p in b ==> p in Materialize(b) || p in SpecialEntries(b);
    }
  }

  /** Two staging copies of one captured tree with the same manifest rebuild to the same tree. */
  lemma ManifestDeterminesTree(base: Tree, d: Directory, e: Directory)
    requires ManifestOf(base, Rebuild(base, d)) == ManifestOf(base, Rebuild(base, e))
    ensures Rebuild(base, d) == Rebuild(base, e)
  {
    ManifestDetermines(base, Rebuild(base, d), Rebuild(base, e));
    RebuildKeepsSpecial(base, d);
    RebuildKeepsSpecial(base, e);
    TreeExtensional(Rebuild(base, d), Rebuild(base, e));
  }
}
