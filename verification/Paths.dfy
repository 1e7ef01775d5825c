/**
 Relative paths as strings with '/' between the components, in the order in which
 change-set manifests list them.
 */
module Paths {

  /** Code-point order, the order of Python's sorted() and of ORDER BY path. */
  predicate Less(a: string, b: string) {
    b != [] && (a == [] || a[0] < b[0] || (a[0] == b[0] && Less(a[1..], b[1..])))
  }

  /** q lies inside the directory named d. */
  predicate Inside(d: string, q: string) {
    0 < |d| < |q| && q[..|d|] == d && q[|d|] == '/'
  }

  /** The directories a path needs. */
  function Ancestors(q: string): (r: set<string>)
    ensures forall d :: d in r <==> Inside(d, q)
  {
    set i | 0 < i < |q| && q[i] == '/' :: q[..i]
  }

  ghost predicate StrictlySorted(ps: seq<string>) {
    forall i, j :: 0 <= i < j < |ps| ==> Less(ps[i], ps[j])
  }

  lemma {:induction false} LessTransitive(a: string, b: string, c: string)
    requires Less(a, b) && Less(b, c)
    ensures Less(a, c)
  {
    if a != [] && a[0] == b[0] && b[0] == c[0] {
      LessTransitive(a[1..], b[1..], c[1..]);
    }
  }

  lemma {:induction false} LessIrreflexive(a: string)
    ensures !Less(a, a)
  {
    if a != [] { LessIrreflexive(a[1..]); }
  }

  lemma {:induction false} LessTotal(a: string, b: string)
    ensures Less(a, b) || Less(b, a) || a == b
  {
    if a != [] && b != [] && a[0] == b[0] {
      LessTotal(a[1..], b[1..]);
      assert a == [a[0]] + a[1..] && b == [b[0]] + b[1..];
    }
  }

  /** A directory sorts before everything inside it. */
  lemma {:induction false} DirectoryFirst(d: string, q: string)
    requires |d| < |q| && q[..|d|] == d
    ensures Less(d, q)
  {
    if d != [] {
      assert q[0] == q[..|d|][0];
      assert q[1..][..|d| - 1] == q[..|d|][1..];
      DirectoryFirst(d[1..], q[1..]);
    }
  }

  lemma InsideSortsLater(d: string, q: string)
    requires Inside(d, q)
    ensures Less(d, q)
  {
    DirectoryFirst(d, q);
  }

  /** In a sorted list the entries at the places of an earlier path all precede it. */
  lemma SortedPlaces(ps: seq<string>, i: nat, j: nat)
    requires StrictlySorted(ps) && i < |ps| && j < |ps| && Less(ps[i], ps[j])
    ensures i < j
  {
    if j <= i {
      if j < i { LessTransitive(ps[i], ps[j], ps[i]); }
      LessIrreflexive(ps[i]);
    }
  }

  lemma SortedDistinct(ps: seq<string>, i: nat, j: nat)
    requires StrictlySorted(ps) && i < j < |ps|
    ensures ps[i] != ps[j]
  {
    LessIrreflexive(ps[i]);
  }

  /** A set of paths has one sorted list. */
  lemma {:induction false} SortedUnique(ps: seq<string>, qs: seq<string>)
    requires StrictlySorted(ps) && StrictlySorted(qs)
    requires forall p :: p in ps <==> p in qs
    ensures ps == qs
  {
    EmptyTogether(ps, qs);
    if ps != [] {
      assert ps[0] in qs;
      var j: nat :| j < |qs| && qs[j] == ps[0];
      assert qs[0] in ps;
      var i: nat :| i < |ps| && ps[i] == qs[0];
      if j > 0 && i > 0 {
        LessTransitive(ps[0], ps[i], qs[j]);
        LessIrreflexive(ps[0]);
      }
      assert ps[0] == qs[0];
      TailMembers(ps);
      TailMembers(qs);
      SortedUnique(ps[1..], qs[1..]);
      assert ps == [ps[0]] + ps[1..] && qs == [qs[0]] + qs[1..];
    }
  }

  lemma EmptyTogether(ps: seq<string>, qs: seq<string>)
    requires forall p :: p in ps <==> p in qs
    ensures ps == [] <==> qs == []
  {
    if ps != [] { assert ps[0] in qs; }
    if qs != [] { assert qs[0] in ps; }
  }

  lemma TailMembers(ps: seq<string>)
    requires StrictlySorted(ps) && ps != []
    ensures StrictlySorted(ps[1..])
    ensures forall p :: p in ps[1..] <==> p in ps && p != ps[0]
  {
    forall p ensures p in ps[1..] <==> p in ps && p != ps[0] {
      if p in ps[1..] {
        var j: nat :| j < |ps[1..]| && ps[1..][j] == p;
        SortedDistinct(ps, 0, j + 1);
      }
      if p in ps && p != ps[0] {
        var j: nat :| j < |ps| && ps[j] == p;
        assert ps[1..][j - 1] == p;
      }
    }
  }

  /** Taking some of a sorted list in order keeps it sorted. */
  lemma PickKeepsSorted(all: seq<string>, i: nat, kept: seq<string>)
    requires StrictlySorted(all) && StrictlySorted(kept) && i < |all|
    requires forall p :: p in kept ==> p in all[..i]
    ensures StrictlySorted(kept + [all[i]])
  {
    forall k | 0 <= k < |kept| ensures Less(kept[k], all[i]) {
      assert kept[k] in all[..i];
      var j :| 0 <= j < i && all[j] == kept[k];
    }
  }

  /** Where a new path goes. */
  function Insert(ps: seq<string>, p: string): (r: seq<string>)
    ensures forall q :: q in r <==> q in ps || q == p
  {
    if ps == [] then [p]
    else if ps[0] == p then ps
    else if Less(p, ps[0]) then [p] + ps
    else [ps[0]] + Insert(ps[1..], p)
  }

  lemma {:induction false} InsertSorted(ps: seq<string>, p: string)
    requires StrictlySorted(ps)
    ensures StrictlySorted(Insert(ps, p))
  {
    if ps != [] && ps[0] != p {
      if Less(p, ps[0]) {
        var r := [p] + ps;
        forall i, j | 0 <= i < j < |r| ensures Less(r[i], r[j]) {
          if i == 0 && j > 1 { LessTransitive(p, ps[0], ps[j - 1]); }
        }
      } else {
        LessTotal(p, ps[0]);
        InsertSorted(ps[1..], p);
        var rest := Insert(ps[1..], p);
        var r := [ps[0]] + rest;
        forall i, j | 0 <= i < j < |r| ensures Less(r[i], r[j]) {
          if i == 0 {
            assert rest[j - 1] in rest;
            if rest[j - 1] != p {
              var k :| 0 <= k < |ps[1..]| && ps[1..][k] == rest[j - 1];
              assert Less(ps[0], ps[k + 1]);
            }
          }
        }
      }
    }
  }

  /** The sorted list of a set of paths. */
  ghost function Sorted(s: set<string>): (r: seq<string>)
    ensures StrictlySorted(r) && forall p :: p in r <==> p in s
  {
    if s == {} then []
    else
      var p :| p in s;
      InsertSorted(Sorted(s - {p}), p);
      Insert(Sorted(s - {p}), p)
  }

  method Sort(s: set<string>) returns (r: seq<string>)
    ensures r == Sorted(s)
  {
    r := [];
    var rest := s;
    while rest != {}
      invariant rest <= s && StrictlySorted(r)
      invariant forall p :: p in r <==> p in s - rest
      decreases |rest|
    {
      var p :| p in rest;
      InsertSorted(r, p);
      r := Insert(r, p);
      rest := rest - {p};
    }
    SortedUnique(r, Sorted(s));
  }
}
