/** The file operations that hold and give back the masks of one run. */
module MaskFiles {
  import opened Outcomes
  import opened Paths
  import opened Sandboxes
  import opened MaskTrees

  /** The host's tree, and the processes `/proc` lists. */
  class FileSystem {
    var tree: Tree
    const alive: set<nat>

    constructor (tree: Tree, alive: set<nat>)
      ensures this.tree == tree && this.alive == alive
    {
      this.tree, this.alive := tree, alive;
    }

    method CreateDirAll(p: Path) returns (ok: bool)
      modifies this
      ensures ok <==> CreateDirectories(old(tree), p).Some?
      ensures tree == if ok then CreateDirectories(old(tree), p).value else old(tree)
    {
      var created := CreateDirectories(tree, p);
      ok := created.Some?;
      if ok { tree := created.value; }
    }

    method WriteMarker(d: Path, run: Run) returns (ok: bool)
      modifies this
      ensures ok <==> d in old(tree).dirs
      ensures tree == if ok then old(tree).(markers := old(tree).markers + {(d, run)}) else old(tree)
    {
      ok := d in tree.dirs;
      if ok { tree := tree.(markers := tree.markers + {(d, run)}); }
    }

    method RemoveFile(d: Path, run: Run)
      modifies this
      ensures tree == old(tree).(markers := old(tree).markers - {(d, run)})
    {
      tree := tree.(markers := tree.markers - {(d, run)});
    }

    /** Does nothing to a directory that still holds something. */
    method RemoveDir(d: Path)
      modifies this
      ensures tree == RemoveDirectory(old(tree), d)
    {
      tree := RemoveDirectory(tree, d);
    }
  }

  // ----- holding -----

  ghost predicate AllThere(t: Tree, directories: seq<Path>) {
    forall i :: 0 <= i < |directories| ==> directories[i] in t.dirs
  }

  /** Writes the markers from the outermost directory inwards and gives up at the first that cannot be written. */
  method MarkAllOrFail(fs: FileSystem, directories: seq<Path>, run: Run) returns (marked: Option<seq<Path>>)
    modifies fs
    ensures marked.Some? <==> AllThere(old(fs.tree), directories)
    ensures marked.Some? ==> marked.value == Reversed(directories) && fs.tree == MarkAll(old(fs.tree), directories, run)
    ensures fs.tree.dirs == old(fs.tree).dirs && fs.tree.files == old(fs.tree).files
    ensures old(fs.tree).markers <= fs.tree.markers <= MarkAll(old(fs.tree), directories, run).markers
  {
    var paths: seq<Path> := [];
    var i: nat := |directories|;
    assert directories[i..] == [];
    while i > 0
      invariant i <= |directories|
      invariant paths == Reversed(directories[i..])
      invariant AllThere(old(fs.tree), directories[i..])
      invariant fs.tree == MarkAll(old(fs.tree), directories[i..], run)
    {
      i := i - 1;
      var there := fs.WriteMarker(directories[i], run);
      if !there {
        return None;
      }
      assert directories[i..] == [directories[i]] + directories[i + 1..];
      paths := paths + [directories[i]];
    }
    assert directories[0..] == directories;
    marked := Some(paths);
  }

  method RemoveDeadMarkers(fs: FileSystem, directories: seq<Path>)
    modifies fs
    ensures fs.tree == Swept(old(fs.tree), directories, fs.alive)
    ensures forall m :: m in fs.tree.markers <==> m in old(fs.tree).markers && !(m.0 in directories && m.1.process !in fs.alive)
    ensures fs.tree.dirs == old(fs.tree).dirs && fs.tree.files == old(fs.tree).files
  {
    var i := 0;
    while i < |directories|
      invariant i <= |directories| && fs.tree == Swept(old(fs.tree), directories[..i], fs.alive)
    {
      var dead := set m | m in fs.tree.markers && m.0 == directories[i] && m.1.process !in fs.alive;
      assert directories[..i + 1] == directories[..i] + [directories[i]];
      RemoveMarkersOf(fs, dead);
      i := i + 1;
    }
    assert directories[..i] == directories;
  }

  method RemoveMarkersOf(fs: FileSystem, dead: set<(Path, Run)>)
    modifies fs
    ensures fs.tree == old(fs.tree).(markers := old(fs.tree).markers - dead)
  {
    var left := dead;
    while left != {}
      invariant left <= dead && fs.tree == old(fs.tree).(markers := old(fs.tree).markers - (dead - left))
      decreases left
    {
      var m :| m in left;
      fs.RemoveFile(m.0, m.1);
      left := left - {m};
      assert (m.0, m.1) == m;
      assert dead - left == (dead - (left + {m})) + {m};
    }
    assert dead - left == dead;
  }

  /**
   * One mask, from nothing to marked: up to four rounds of creating and marking, then a sweep. No answer means a file
   * blocks the path or some directory stayed missing; earlier markers of a failed round are left where they are.
   */
  method MarkInUse(fs: FileSystem, directories: seq<Path>, run: Run) returns (marked: Option<seq<Path>>)
    modifies fs
    ensures directories == [] ==> marked.None? && fs.tree == old(fs.tree)
    ensures directories != [] && CreateDirectories(old(fs.tree), directories[0]).None? ==> marked.None? && fs.tree == old(fs.tree)
    ensures directories != [] && CreateDirectories(old(fs.tree), directories[0]).Some? ==>
      var created := CreateDirectories(old(fs.tree), directories[0]).value;
      && (marked.Some? <==> AllThere(created, directories))
      && (marked.Some? ==> marked.value == Reversed(directories) && fs.tree == Swept(MarkAll(created, directories, run), directories, fs.alive))
      && (marked.None? ==> fs.tree.dirs == created.dirs && created.markers <= fs.tree.markers <= MarkAll(created, directories, run).markers)
  {
    if directories == [] {
      return None;
    }
    ghost var created := CreateDirectories(old(fs.tree), directories[0]);
    var attempt := 0;
    while attempt < MARK_ATTEMPTS
      invariant attempt == 0 ==> fs.tree == old(fs.tree)
      invariant attempt > 0 ==> created.Some? && !AllThere(created.value, directories)
      invariant attempt > 0 ==> IsRetry(old(fs.tree), fs.tree, directories, run)
    {
      var ok := fs.CreateDirAll(directories[0]);
      if !ok {
        return None;
      }
      RetryCreates(old(fs.tree), fs.tree, directories, run);
      marked := MarkAllOrFail(fs, directories, run);
      if marked.Some? {
        RemoveDeadMarkers(fs, directories);
        return;
      }
      attempt := attempt + 1;
    }
    marked := None;
  }

  /** The tree after a failed attempt: created, and partly marked. */
  ghost predicate IsRetry(before: Tree, t: Tree, directories: seq<Path>, run: Run)
    requires directories != []
  {
    var created := CreateDirectories(before, directories[0]);
    created.Some? && t.dirs == created.value.dirs && t.files == before.files
    && before.markers <= t.markers <= MarkAll(created.value, directories, run).markers
  }

  lemma RetryCreates(before: Tree, t: Tree, directories: seq<Path>, run: Run)
    requires directories != []
    ensures IsRetry(before, t, directories, run) ==> CreateDirectories(t, directories[0]) == Some(t)
  {
    if IsRetry(before, t, directories, run) {
      assert t.dirs + Ancestors(directories[0]) == t.dirs;
    }
  }

  lemma {:induction false} MaskDirectoriesAreAncestors(t: Tree, p: Path)
    ensures forall d :: d in MaskDirectories(t, p) ==> Contains(d, p)
    ensures MaskDirectories(t, p) != [] ==> MaskDirectories(t, p)[0] == p
    decreases |p|
  {
    if p != [] {
      MaskDirectoriesAreAncestors(t, Parent(p));
    }
  }

  ghost predicate AreChains(masks: seq<seq<Path>>) {
    forall i :: 0 <= i < |masks| ==> masks[i] != [] && forall d :: d in masks[i] ==> Contains(d, masks[i][0])
  }

  lemma {:induction false} PlanIsOfChains(t: Tree, policy: ResolvedSandbox, denied: seq<Path>)
    ensures AreChains(MaskPlan(t, policy, denied))
  {
    if denied != [] {
      MaskDirectoriesAreAncestors(t, denied[0]);
      PlanIsOfChains(t, policy, denied[1..]);
    }
  }

  /** The masks from `masks` on are still to hold; the others are in the lists. */
  ghost predicate IsHoldingOn(first: (Tree, HeldMasks), t: Tree, masks: seq<seq<Path>>, run: Run, alive: set<nat>,
                              markers: seq<Path>, directories: seq<Path>)
    requires forall i :: 0 <= i < |masks| ==> masks[i] != []
  {
    var (u, rest) := HoldEach(t, masks, run, alive);
    first == (u, HeldMasks(run, markers + rest.markers, directories + rest.directories))
  }

  lemma {:induction false} HoldEachIsOf(t: Tree, masks: seq<seq<Path>>, run: Run, alive: set<nat>)
    requires forall i :: 0 <= i < |masks| ==> masks[i] != []
    ensures HoldEach(t, masks, run, alive).1.run == run
    decreases |masks|
  {
    if masks != [] && HoldOne(t, masks[0], run, alive).None? {
      HoldEachIsOf(t, masks[1..], run, alive);
    }
  }

  lemma NothingHeldYet(t: Tree, masks: seq<seq<Path>>, run: Run, alive: set<nat>)
    requires forall i :: 0 <= i < |masks| ==> masks[i] != []
    ensures IsHoldingOn(HoldEach(t, masks, run, alive), t, masks, run, alive, [], [])
  {
    var held := HoldEach(t, masks, run, alive).1;
    HoldEachIsOf(t, masks, run, alive);
    assert [] + held.markers == held.markers && [] + held.directories == held.directories;
  }

  lemma AllHeld(first: (Tree, HeldMasks), t: Tree, run: Run, alive: set<nat>, markers: seq<Path>, directories: seq<Path>)
    requires IsHoldingOn(first, t, [], run, alive, markers, directories)
    ensures first == (t, HeldMasks(run, markers, directories))
  {
    assert markers + [] == markers && directories + [] == directories;
  }

  lemma OneMoreHeld(first: (Tree, HeldMasks), t: Tree, masks: seq<seq<Path>>, run: Run, alive: set<nat>,
                    markers: seq<Path>, directories: seq<Path>)
    requires masks != [] && forall i :: 0 <= i < |masks| ==> masks[i] != []
    requires IsHoldingOn(first, t, masks, run, alive, markers, directories)
    ensures var held := HoldOne(t, masks[0], run, alive);
            if held.None? then IsHoldingOn(first, t, masks[1..], run, alive, markers, directories)
            else IsHoldingOn(first, held.value, masks[1..], run, alive, markers + Reversed(masks[0]), directories + masks[0])
  {
    var held := HoldOne(t, masks[0], run, alive);
    if held.Some? {
      var rest := HoldEach(held.value, masks[1..], run, alive).1;
      assert markers + (Reversed(masks[0]) + rest.markers) == markers + Reversed(masks[0]) + rest.markers;
      assert directories + (masks[0] + rest.directories) == directories + masks[0] + rest.directories;
    }
  }

  /** Holds the masks of one run, one mask after another. */
  method HoldMasks(fs: FileSystem, policy: ResolvedSandbox, run: Run) returns (held: HeldMasks)
    modifies fs
    ensures (fs.tree, held) == Hold(old(fs.tree), policy, run, fs.alive)
  {
    var masks := MaskPlan(fs.tree, policy, policy.writeDeny);
    PlanIsOfChains(fs.tree, policy, policy.writeDeny);
    PlannedAreNonEmpty(fs.tree, policy, policy.writeDeny);
    ghost var first := HoldEach(fs.tree, masks, run, fs.alive);
    var markers: seq<Path>, directories: seq<Path> := [], [];
    var i := 0;
    NothingHeldYet(fs.tree, masks, run, fs.alive);
    assert masks[0..] == masks;
    while i < |masks|
      invariant i <= |masks| && IsHoldingOn(first, fs.tree, masks[i..], run, fs.alive, markers, directories)
    {
      assert masks[i..][0] == masks[i] && masks[i..][1..] == masks[i + 1..];
      OneMoreHeld(first, fs.tree, masks[i..], run, fs.alive, markers, directories);
      var marked := HoldMask(fs, masks[i], run);
      if marked.Some? {
        markers := markers + marked.value;
        directories := directories + masks[i];
      }
      i := i + 1;
    }
    assert masks[i..] == [];
    AllHeld(first, fs.tree, run, fs.alive, markers, directories);
    held := HeldMasks(run, markers, directories);
  }

  /** A planned mask: its directories all come with the deepest one, so the first round marks them. */
  method HoldMask(fs: FileSystem, mask: seq<Path>, run: Run) returns (marked: Option<seq<Path>>)
    requires mask != [] && forall d :: d in mask ==> Contains(d, mask[0])
    modifies fs
    ensures marked == if HoldOne(old(fs.tree), mask, run, fs.alive).Some? then Some(Reversed(mask)) else None
    ensures fs.tree == if marked.Some? then HoldOne(old(fs.tree), mask, run, fs.alive).value else old(fs.tree)
  {
    marked := MarkInUse(fs, mask, run);
  }

  // ----- giving back -----

  method DropMasks(fs: FileSystem, held: HeldMasks)
    modifies fs
    ensures fs.tree == Drop(old(fs.tree), held)
  {
    var i := 0;
    while i < |held.markers|
      invariant i <= |held.markers| && fs.tree == RemoveMarkers(old(fs.tree), held.markers[..i], held.run)
    {
      fs.RemoveFile(held.markers[i], held.run);
      assert held.markers[..i + 1] == held.markers[..i] + [held.markers[i]];
      i := i + 1;
    }
    assert held.markers[..i] == held.markers;
    i := 0;
    while i < |held.directories|
      invariant i <= |held.directories| && RemoveEach(fs.tree, held.directories[i..]) == Drop(old(fs.tree), held)
    {
      assert held.directories[i..][0] == held.directories[i] && held.directories[i..][1..] == held.directories[i + 1..];
      fs.RemoveDir(held.directories[i]);
      i := i + 1;
    }
  }
}
