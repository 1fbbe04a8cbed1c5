/** One resolved sandbox policy, as both backends read it. */
module Sandboxes {
  import opened Outcomes
  import opened Paths

  /** Absolute host paths: what may not be read, what may be written, and what may not after all. */
  datatype ResolvedSandbox = ResolvedSandbox(
    readDeny: seq<Path>, writeAllow: seq<Path>, writeDeny: seq<Path>, localhost: bool, executables: Option<seq<Path>>)

  /** Some path of the list is or contains `p`. */
  predicate IsUnder(paths: seq<Path>, p: Path) {
    exists i :: 0 <= i < |paths| && Contains(paths[i], p)
  }

  /** A writable directory contains the path. */
  predicate InsideWriteAllow(resolved: ResolvedSandbox, p: Path) {
    exists i :: 0 <= i < |resolved.writeAllow| && Contains(resolved.writeAllow[i], p) && p != resolved.writeAllow[i]
  }

  // ----- the order of paths -----

  /** Names compare character by character, a prefix first. */
  predicate NameBefore(a: string, b: string) {
    b != [] && (a == [] || a[0] < b[0] || (a[0] == b[0] && NameBefore(a[1..], b[1..])))
  }

  /** Paths compare component by component, a parent before what it contains. */
  predicate PathBefore(a: Path, b: Path) {
    b != [] && (a == [] || NameBefore(a[0], b[0]) || (a[0] == b[0] && PathBefore(a[1..], b[1..])))
  }

  lemma {:induction false} NamesAreOrdered(a: string, b: string)
    ensures a == b || NameBefore(a, b) || NameBefore(b, a)
    ensures !(NameBefore(a, b) && NameBefore(b, a)) && !NameBefore(a, a)
  {
    if a != [] && b != [] {
      NamesAreOrdered(a[1..], b[1..]);
      NamesAreOrdered(a[1..], a[1..]);
      assert a == [a[0]] + a[1..] && b == [b[0]] + b[1..];
    } else if a != [] {
      NamesAreOrdered(a[1..], a[1..]);
    }
  }

  lemma {:induction false} NamesChain(a: string, b: string, c: string)
    requires NameBefore(a, b) && NameBefore(b, c)
    ensures NameBefore(a, c)
  {
    if a != [] && a[0] == b[0] == c[0] {
      NamesChain(a[1..], b[1..], c[1..]);
    }
  }

  lemma {:induction false} PathsAreOrdered(a: Path, b: Path)
    ensures a == b || PathBefore(a, b) || PathBefore(b, a)
    ensures !(PathBefore(a, b) && PathBefore(b, a)) && !PathBefore(a, a)
  {
    if a != [] && b != [] {
      NamesAreOrdered(a[0], b[0]);
      NamesAreOrdered(a[0], a[0]);
      PathsAreOrdered(a[1..], b[1..]);
      PathsAreOrdered(a[1..], a[1..]);
      assert a == [a[0]] + a[1..] && b == [b[0]] + b[1..];
    } else if a != [] {
      NamesAreOrdered(a[0], a[0]);
      PathsAreOrdered(a[1..], a[1..]);
    }
  }

  lemma {:induction false} PathsChain(a: Path, b: Path, c: Path)
    requires PathBefore(a, b) && PathBefore(b, c)
    ensures PathBefore(a, c)
  {
    if a != [] {
      if NameBefore(a[0], b[0]) && NameBefore(b[0], c[0]) {
        NamesChain(a[0], b[0], c[0]);
      } else if a[0] == b[0] == c[0] {
        PathsChain(a[1..], b[1..], c[1..]);
      }
    }
  }

  lemma {:induction false} ParentsComeFirst(a: Path, b: Path)
    requires Contains(a, b) && a != b
    ensures PathBefore(a, b) && !PathBefore(b, a)
  {
    PathsAreOrdered(a, b);
    if a != [] {
      assert Contains(a[1..], b[1..]) && a[1..] != b[1..] by {
        assert a == [a[0]] + a[1..] && b == [b[0]] + b[1..];
      }
      ParentsComeFirst(a[1..], b[1..]);
    }
  }

  ghost predicate IsSorted(paths: seq<Path>) {
    forall i, j :: 0 <= i < j < |paths| ==> PathBefore(paths[i], paths[j])
  }

  function Insert(p: Path, sorted: seq<Path>): seq<Path> {
    if sorted == [] then [p]
    else if p == sorted[0] then sorted
    else if PathBefore(p, sorted[0]) then [p] + sorted
    else [sorted[0]] + Insert(p, sorted[1..])
  }

  lemma {:induction false} InsertSorts(p: Path, sorted: seq<Path>)
    requires IsSorted(sorted)
    ensures IsSorted(Insert(p, sorted)) && forall q :: q in Insert(p, sorted) <==> q == p || q in sorted
  {
    var r := Insert(p, sorted);
    if sorted != [] {
      var rest := sorted[1..];
      PathsAreOrdered(p, sorted[0]);
      if p != sorted[0] && PathBefore(p, sorted[0]) {
        forall j | 0 < j < |r| ensures PathBefore(p, r[j]) {
          if j > 1 { PathsChain(p, sorted[0], sorted[j - 1]); }
        }
      } else if p != sorted[0] {
        InsertSorts(p, rest);
        var inserted := Insert(p, rest);
        forall j | 0 <= j < |inserted| ensures PathBefore(sorted[0], inserted[j]) {
          assert inserted[j] in inserted;
          if inserted[j] != p {
            var k :| 0 <= k < |rest| && rest[k] == inserted[j];
            assert sorted[k + 1] == rest[k];
          }
        }
      }
      assert sorted == [sorted[0]] + rest;
    }
  }

  /** The paths in order, duplicates dropped. */
  function Dedup(paths: seq<Path>): seq<Path> {
    if paths == [] then [] else Insert(paths[|paths| - 1], Dedup(paths[..|paths| - 1]))
  }

  lemma {:induction false} DedupSorts(paths: seq<Path>)
    ensures IsSorted(Dedup(paths)) && forall q :: q in Dedup(paths) <==> q in paths
  {
    if paths != [] {
      DedupSorts(paths[..|paths| - 1]);
      InsertSorts(paths[|paths| - 1], Dedup(paths[..|paths| - 1]));
      assert paths == paths[..|paths| - 1] + [paths[|paths| - 1]];
    }
  }

  // ----- protected ancestors -----

  function StrictAncestors(p: Path): (r: seq<Path>)
    ensures forall a :: a in r <==> Contains(a, p) && a != p
    decreases |p|
  {
    if p == [] then []
    else
      var rest := StrictAncestors(Parent(p));
      assert forall a :: Contains(a, p) && a != p <==> a == Parent(p) || (Contains(a, Parent(p)) && a != Parent(p));
      [Parent(p)] + rest
  }

  function InsideOf(resolved: ResolvedSandbox, paths: seq<Path>): (r: seq<Path>)
    ensures forall a :: a in r <==> a in paths && InsideWriteAllow(resolved, a)
  {
    if paths == [] then []
    else
      var rest := InsideOf(resolved, paths[1..]);
      if InsideWriteAllow(resolved, paths[0]) then [paths[0]] + rest else rest
  }

  function AncestorsInside(resolved: ResolvedSandbox, denied: seq<Path>): (r: seq<Path>)
    ensures forall a :: a in r <==> InsideWriteAllow(resolved, a) && exists d :: d in denied && Contains(a, d) && a != d
  {
    if denied == [] then []
    else InsideOf(resolved, StrictAncestors(denied[0])) + AncestorsInside(resolved, denied[1..])
  }

  /** Parents of denied paths inside a writable directory, parents before their own children. */
  function ProtectedAncestors(resolved: ResolvedSandbox): seq<Path> {
    Dedup(AncestorsInside(resolved, resolved.writeDeny))
  }

  /** The protected ancestors are exactly the writable parents of denied paths, and a parent precedes its children. */
  lemma ProtectedAncestorsAre(resolved: ResolvedSandbox)
    ensures forall a :: a in ProtectedAncestors(resolved) <==>
              (exists w :: w in resolved.writeAllow && Contains(w, a) && a != w)
              && exists d :: d in resolved.writeDeny && Contains(a, d) && a != d
    ensures var r := ProtectedAncestors(resolved); forall i, j :: 0 <= i < j < |r| ==> !Contains(r[j], r[i])
  {
    DedupSorts(AncestorsInside(resolved, resolved.writeDeny));
    var r := ProtectedAncestors(resolved);
    forall a ensures InsideWriteAllow(resolved, a) <==> exists w :: w in resolved.writeAllow && Contains(w, a) && a != w {
      if w :| w in resolved.writeAllow && Contains(w, a) && a != w {
        var i :| 0 <= i < |resolved.writeAllow| && resolved.writeAllow[i] == w;
      }
    }
    forall i, j | 0 <= i < j < |r| ensures !Contains(r[j], r[i]) {
      PathsAreOrdered(r[i], r[j]);
      if Contains(r[j], r[i]) && r[i] != r[j] {
        ParentsComeFirst(r[j], r[i]);
      }
    }
  }
}
