/** Whole holds and drops of mask directories, which runs share by leaving a marker in each. */
module MaskTrees {
  import opened Outcomes
  import opened Paths
  import opened Sandboxes

  /** A run of a sandbox: the process it belongs to, and its number there. */
  datatype Run = Run(process: nat, sequence: nat)

  /** How many rounds of creating and marking one mask gets. */
  const MARK_ATTEMPTS: nat := 4

  /** The host's directories, its other files, and the markers runs left in directories. */
  datatype Tree = Tree(dirs: set<Path>, files: set<Path>, markers: set<(Path, Run)>)

  predicate Exists(t: Tree, p: Path) {
    p in t.dirs || p in t.files
  }

  predicate IsMarked(t: Tree, p: Path) {
    exists m :: m in t.markers && m.0 == p
  }

  predicate IsEmptyDirectory(t: Tree, p: Path) {
    && p in t.dirs && !IsMarked(t, p)
    && (forall d :: d in t.dirs && d != [] ==> Parent(d) != p)
    && (forall f :: f in t.files && f != [] ==> Parent(f) != p)
  }

  /** A file stands where a directory would have to be. */
  predicate IsBlocked(files: set<Path>, p: Path) {
    exists f :: f in files && Contains(f, p)
  }

  // ----- file operations -----

  function CreateDirectories(t: Tree, p: Path): Option<Tree> {
    if IsBlocked(t.files, p) then None else Some(t.(dirs := t.dirs + Ancestors(p)))
  }

  function RemoveDirectory(t: Tree, p: Path): Tree {
    if p != [] && IsEmptyDirectory(t, p) then t.(dirs := t.dirs - {p}) else t
  }

  function RemoveMarkers(t: Tree, marked: seq<Path>, run: Run): Tree {
    t.(markers := set m | m in t.markers && !(m.0 in marked && m.1 == run))
  }

  // ----- planning and holding -----


  /** From the path upwards, as long as each directory is missing or marked. */
  function MaskDirectories(t: Tree, p: Path): seq<Path>
    decreases |p|
  {
    if Exists(t, p) && !IsMarked(t, p) then []
    else if p == [] then [p]
    else [p] + MaskDirectories(t, Parent(p))
  }

  function MaskPlan(t: Tree, policy: ResolvedSandbox, denied: seq<Path>): seq<seq<Path>> {
    if denied == [] then []
    else
      var directories := MaskDirectories(t, denied[0]);
      if InsideWriteAllow(policy, denied[0]) && directories != [] then [directories] + MaskPlan(t, policy, denied[1..])
      else MaskPlan(t, policy, denied[1..])
  }

  datatype HeldMasks = HeldMasks(run: Run, markers: seq<Path>, directories: seq<Path>)

  function Reversed(s: seq<Path>): (r: seq<Path>)
    ensures |r| == |s| && forall p :: p in r <==> p in s
  {
    if s == [] then [] else Reversed(s[1..]) + [s[0]]
  }

  function MarkAll(t: Tree, directories: seq<Path>, run: Run): Tree {
    t.(markers := t.markers + set d | d in directories :: (d, run))
  }

  /** The marks of runs whose process is gone leave the directories that were just marked. */
  function Swept(t: Tree, directories: seq<Path>, alive: set<nat>): Tree {
    t.(markers := set m | m in t.markers && !(m.0 in directories && m.1.process !in alive))
  }

  predicate AllAlive(t: Tree, alive: set<nat>) {
    forall m :: m in t.markers ==> m.1.process in alive
  }

  /** One mask created, marked and swept, unless a file is in the way. */
  function HoldOne(t: Tree, mask: seq<Path>, run: Run, alive: set<nat>): Option<Tree>
    requires mask != []
  {
    var created := CreateDirectories(t, mask[0]);
    if created.None? then None else Some(Swept(MarkAll(created.value, mask, run), mask, alive))
  }

  /** Holds one mask after another; one that cannot be created is left alone. */
  function HoldEach(t: Tree, masks: seq<seq<Path>>, run: Run, alive: set<nat>): (Tree, HeldMasks)
    requires forall i :: 0 <= i < |masks| ==> masks[i] != []
    decreases |masks|
  {
    if masks == [] then (t, HeldMasks(run, [], []))
    else if HoldOne(t, masks[0], run, alive).None? then HoldEach(t, masks[1..], run, alive)
    else
      var (rest, held) := HoldEach(HoldOne(t, masks[0], run, alive).value, masks[1..], run, alive);
      (rest, HeldMasks(run, Reversed(masks[0]) + held.markers, masks[0] + held.directories))
  }

  lemma {:induction false} PlannedAreNonEmpty(t: Tree, policy: ResolvedSandbox, denied: seq<Path>)
    ensures forall i :: 0 <= i < |MaskPlan(t, policy, denied)| ==> MaskPlan(t, policy, denied)[i] != []
  {
    if denied != [] {
      PlannedAreNonEmpty(t, policy, denied[1..]);
    }
  }

  /** A whole hold; `alive` are the processes that still run. */
  function Hold(t: Tree, policy: ResolvedSandbox, run: Run, alive: set<nat>): (Tree, HeldMasks) {
    PlannedAreNonEmpty(t, policy, policy.writeDeny);
    HoldEach(t, MaskPlan(t, policy, policy.writeDeny), run, alive)
  }

  function RemoveEach(t: Tree, directories: seq<Path>): Tree
    decreases |directories|
  {
    if directories == [] then t else RemoveEach(RemoveDirectory(t, directories[0]), directories[1..])
  }

  function Drop(t: Tree, held: HeldMasks): Tree {
    RemoveEach(RemoveMarkers(t, held.markers, held.run), held.directories)
  }

  // ----- what the host looks like meanwhile -----

  /** A host no run uses: files lie in directories, and nothing is marked. */
  predicate IsBase(base: Tree) {
    && Rooted(base.dirs) && base.markers == {} && base.dirs !! base.files
    && forall f :: f in base.files ==> f != [] && Parent(f) in base.dirs
  }

  /** A directory some mask of the policy needs: above a denied path, and not there before. */
  ghost predicate IsNeeded(base: Tree, policy: ResolvedSandbox, d: Path) {
    d !in base.dirs && exists i :: 0 <= i < |policy.writeDeny| && IsMasked(base, policy, policy.writeDeny[i]) && Contains(d, policy.writeDeny[i])
  }

  /** The policy masks the path: it is inside a writable directory, and no file is in the way. */
  ghost predicate IsMasked(base: Tree, policy: ResolvedSandbox, p: Path) {
    InsideWriteAllow(policy, p) && !IsBlocked(base.files, p)
  }

  /** After each directory that has a parent of its own to give back, that parent follows. */
  ghost predicate ParentsFollow(base: Tree, directories: seq<Path>) {
    forall i :: 0 <= i < |directories| ==> IsFollowed(base, directories, i)
  }

  ghost predicate IsFollowed(base: Tree, directories: seq<Path>, i: nat)
    requires i < |directories|
  {
    && directories[i] !in base.dirs && !IsBlocked(base.files, directories[i]) && directories[i] != []
    && (Parent(directories[i]) !in base.dirs ==> Parent(directories[i]) in directories[i + 1..])
  }

  /** What one run holds: markers in exactly its directories, and a list that gives them all back. */
  ghost predicate IsHolding(base: Tree, held: HeldMasks, run: Run) {
    && held.run == run && ParentsFollow(base, held.directories)
    && forall d :: d in held.markers <==> d in held.directories
  }

  ghost predicate IsHeld(held: map<Run, HeldMasks>, d: Path) {
    exists run :: run in held && d in held[run].directories
  }

  /** The tree is the base and the directories the live runs hold, each with exactly its holders' markers. */
  ghost predicate Balanced(base: Tree, t: Tree, held: map<Run, HeldMasks>) {
    && IsBase(base) && t.files == base.files
    && (forall d :: d in t.dirs <==> d in base.dirs || IsHeld(held, d))
    && (forall d, run :: (d, run) in t.markers <==> run in held && d in held[run].directories)
    && (forall run :: run in held ==> IsHolding(base, held[run], run))
  }

  // ----- holding -----

  /** A mask chain only depends on the base: the ancestors of the path that the base lacks. */
  ghost function Chain(base: Tree, p: Path): seq<Path>
    decreases |p|
  {
    if p in base.dirs || p == [] then [] else [p] + Chain(base, Parent(p))
  }

  lemma HeldIsNew(base: Tree, held: HeldMasks, run: Run, d: Path)
    requires IsHolding(base, held, run) && d in held.directories
    ensures d !in base.dirs && d != [] && !IsBlocked(base.files, d)
  {
    var i :| 0 <= i < |held.directories| && held.directories[i] == d;
    assert IsFollowed(base, held.directories, i);
  }

  lemma HeldIsMarked(base: Tree, t: Tree, held: map<Run, HeldMasks>, d: Path)
    requires Balanced(base, t, held)
    ensures d in base.dirs ==> !IsMarked(t, d)
    ensures d in t.dirs && d !in base.dirs ==> IsMarked(t, d)
  {
    if d in base.dirs {
      forall m | m in t.markers ensures m.0 != d {
        assert (m.0, m.1) in t.markers;
        HeldIsNew(base, held[m.1], m.1, m.0);
      }
    }
    if d in t.dirs && d !in base.dirs {
      var run :| run in held && d in held[run].directories;
      assert (d, run) in t.markers;
    }
  }

  lemma {:induction false} MasksAreChains(base: Tree, t: Tree, held: map<Run, HeldMasks>, p: Path)
    requires Balanced(base, t, held) && !IsBlocked(base.files, p)
    ensures MaskDirectories(t, p) == Chain(base, p)
    decreases |p|
  {
    HeldIsMarked(base, t, held, p);
    assert p !in base.files by {
      if p in base.files { assert Contains(p, p); }
    }
    if p !in base.dirs {
      if IsBlocked(base.files, Parent(p)) {
        var f :| f in base.files && Contains(f, Parent(p));
        assert Contains(f, p);
      }
      MasksAreChains(base, t, held, Parent(p));
    }
  }

  lemma {:induction false} ChainIsFollowed(base: Tree, p: Path)
    requires IsBase(base) && !IsBlocked(base.files, p)
    ensures ParentsFollow(base, Chain(base, p))
    ensures forall d :: d in Chain(base, p) <==> d !in base.dirs && Contains(d, p)
    ensures p !in base.dirs ==> Chain(base, p) != [] && Chain(base, p)[0] == p
    decreases |p|
  {
    var chain := Chain(base, p);
    if p in base.dirs || p == [] {
      forall d | Contains(d, p) ensures d in base.dirs {
        RootedHoldsPrefixes(base.dirs, p, d);
      }
    } else {
      var parent := Parent(p);
      if IsBlocked(base.files, parent) {
        var f :| f in base.files && Contains(f, parent);
        assert Contains(f, p);
      }
      ChainIsFollowed(base, parent);
      var rest := Chain(base, parent);
      forall d ensures d in chain <==> d !in base.dirs && Contains(d, p) {
        assert Contains(d, p) <==> d == p || Contains(d, parent);
      }
      forall i | 0 <= i < |chain| ensures IsFollowed(base, chain, i) {
        assert chain[i + 1..] == rest[i..];
        if i > 0 {
          assert IsFollowed(base, rest, i - 1);
        } else if parent !in base.dirs {
          assert rest[0] == parent;
        }
      }
    }
  }

  lemma JoinedParentsFollow(base: Tree, one: seq<Path>, other: seq<Path>)
    requires ParentsFollow(base, one) && ParentsFollow(base, other)
    ensures ParentsFollow(base, one + other)
  {
    var all := one + other;
    forall i | 0 <= i < |all| ensures IsFollowed(base, all, i) {
      if i < |one| {
        assert IsFollowed(base, one, i);
        assert all[i + 1..] == one[i + 1..] + other;
      } else {
        assert IsFollowed(base, other, i - |one|);
        assert all[i + 1..] == other[i - |one| + 1..];
      }
    }
  }

  /** Each planned mask is the chain of its path, unless a file stands in the way. */
  ghost predicate IsPlan(base: Tree, masks: seq<seq<Path>>) {
    forall i :: 0 <= i < |masks| ==> IsPlannedMask(base, masks[i])
  }

  ghost predicate IsPlannedMask(base: Tree, mask: seq<Path>) {
    mask != [] && (IsBlocked(base.files, mask[0]) || (mask == Chain(base, mask[0]) && mask[0] !in base.dirs))
  }

  /** Some planned mask that is not blocked needs the directory. */
  ghost predicate PlanNeeds(base: Tree, masks: seq<seq<Path>>, d: Path) {
    exists i :: 0 <= i < |masks| && MaskNeeds(base, masks[i], d)
  }

  ghost predicate MaskNeeds(base: Tree, mask: seq<Path>, d: Path) {
    d !in base.dirs && mask != [] && !IsBlocked(base.files, mask[0]) && Contains(d, mask[0])
  }

  lemma {:induction false} PlanIsChains(base: Tree, t: Tree, held: map<Run, HeldMasks>, policy: ResolvedSandbox, denied: seq<Path>)
    requires Balanced(base, t, held)
    ensures IsPlan(base, MaskPlan(t, policy, denied))
    ensures forall d :: PlanNeeds(base, MaskPlan(t, policy, denied), d) <==>
              d !in base.dirs && exists i :: 0 <= i < |denied| && IsMasked(base, policy, denied[i]) && Contains(d, denied[i])
  {
    if denied != [] {
      var p, directories := denied[0], MaskDirectories(t, denied[0]);
      var rest, masks := MaskPlan(t, policy, denied[1..]), MaskPlan(t, policy, denied);
      PlanIsChains(base, t, held, policy, denied[1..]);
      if !IsBlocked(base.files, p) {
        MasksAreChains(base, t, held, p);
        ChainIsFollowed(base, p);
      }
      PlanGrows(base, policy, p, denied[1..], directories, rest, masks);
      assert [p] + denied[1..] == denied;
    }
  }

  lemma PlanGrows(base: Tree, policy: ResolvedSandbox, p: Path, others: seq<Path>, directories: seq<Path>, rest: seq<seq<Path>>, masks: seq<seq<Path>>)
    requires directories != [] ==> directories[0] == p
    requires !IsBlocked(base.files, p) ==> directories == Chain(base, p) && forall d :: d in directories <==> d !in base.dirs && Contains(d, p)
    requires masks == if InsideWriteAllow(policy, p) && directories != [] then [directories] + rest else rest
    requires IsPlan(base, rest)
    requires forall d :: PlanNeeds(base, rest, d) <==>
               d !in base.dirs && exists i :: 0 <= i < |others| && IsMasked(base, policy, others[i]) && Contains(d, others[i])
    ensures IsPlan(base, masks)
    ensures forall d :: PlanNeeds(base, masks, d) <==>
              d !in base.dirs && exists i :: 0 <= i < |[p] + others| && IsMasked(base, policy, ([p] + others)[i]) && Contains(d, ([p] + others)[i])
  {
    var all := [p] + others;
    forall d ensures PlanNeeds(base, masks, d) <==> d !in base.dirs && exists i :: 0 <= i < |all| && IsMasked(base, policy, all[i]) && Contains(d, all[i]) {
      assert forall i :: 0 <= i < |others| ==> all[i + 1] == others[i];
      assert masks != rest ==> masks[0] == directories && forall i :: 0 <= i < |rest| ==> masks[i + 1] == rest[i];
      if d !in base.dirs && IsMasked(base, policy, p) && Contains(d, p) {
        assert d in directories;
        assert MaskNeeds(base, masks[0], d);
        assert all[0] == p;
      }
    }
  }

  /** With nobody dead the sweep takes nothing. */
  lemma NothingIsSwept(t: Tree, mask: seq<Path>, run: Run, alive: set<nat>)
    requires mask != [] && AllAlive(t, alive) && run.process in alive && CreateDirectories(t, mask[0]).Some?
    ensures HoldOne(t, mask, run, alive) == Some(MarkAll(CreateDirectories(t, mask[0]).value, mask, run))
    ensures AllAlive(HoldOne(t, mask, run, alive).value, alive)
  {
    var marked := MarkAll(CreateDirectories(t, mask[0]).value, mask, run);
    assert Swept(marked, mask, alive).markers == marked.markers;
  }

  /** Holding adds exactly the directories the plan needs, and one marker in each. */
  lemma {:induction false} HoldingAdds(base: Tree, t: Tree, masks: seq<seq<Path>>, run: Run, alive: set<nat>)
    requires IsBase(base) && t.files == base.files && base.dirs <= t.dirs && IsPlan(base, masks)
    requires AllAlive(t, alive) && run.process in alive
    ensures var (u, held) := HoldEach(t, masks, run, alive);
            && u.files == t.files && IsHolding(base, held, run)
            && (forall d :: d in held.directories <==> PlanNeeds(base, masks, d))
            && (forall d :: d in u.dirs <==> d in t.dirs || d in held.directories)
            && (forall d, other :: (d, other) in u.markers <==> (d, other) in t.markers || (other == run && d in held.directories))
    decreases |masks|
  {
    if masks != [] {
      var mask, rest := masks[0], masks[1..];
      assert IsPlannedMask(base, mask);
      PlanNeedsFirst(base, masks);
      if IsBlocked(base.files, mask[0]) {
        HoldingAdds(base, t, rest, run, alive);
      } else {
        NothingIsSwept(t, mask, run, alive);
        var marked := HoldOne(t, mask, run, alive).value;
        HoldingAdds(base, marked, rest, run, alive);
        ChainIsFollowed(base, mask[0]);
        JoinedParentsFollow(base, mask, HoldEach(marked, rest, run, alive).1.directories);
        assert forall d :: d in mask <==> MaskNeeds(base, mask, d);
        assert forall d :: d in marked.dirs <==> d in t.dirs || d in mask by {
          forall d | Contains(d, mask[0]) && d !in mask ensures d in t.dirs {}
        }
      }
    }
  }

  lemma PlanNeedsFirst(base: Tree, masks: seq<seq<Path>>)
    requires masks != []
    ensures forall d :: PlanNeeds(base, masks, d) <==> MaskNeeds(base, masks[0], d) || PlanNeeds(base, masks[1..], d)
  {
    assert forall i :: 0 < i < |masks| ==> masks[i] == masks[1..][i - 1];
    assert forall i :: 0 <= i < |masks[1..]| ==> masks[i + 1] == masks[1..][i];
  }

  /** Every run that holds masks belongs to a process that still runs. */
  predicate HoldersAlive(held: map<Run, HeldMasks>, alive: set<nat>) {
    forall run :: run in held ==> run.process in alive
  }

  /** A whole hold keeps the balance, and takes exactly what the policy needs of the base. */
  lemma HoldBalances(base: Tree, t: Tree, held: map<Run, HeldMasks>, policy: ResolvedSandbox, run: Run, alive: set<nat>)
    requires Balanced(base, t, held) && run !in held && HoldersAlive(held, alive) && run.process in alive
    ensures var (u, mine) := Hold(t, policy, run, alive);
            Balanced(base, u, held[run := mine]) && forall d :: d in mine.directories <==> IsNeeded(base, policy, d)
  {
    var masks := MaskPlan(t, policy, policy.writeDeny);
    PlanIsChains(base, t, held, policy, policy.writeDeny);
    assert AllAlive(t, alive) by {
      assert forall m :: m in t.markers ==> (m.0, m.1) in t.markers;
    }
    HoldingAdds(base, t, masks, run, alive);
    var (u, mine) := HoldEach(t, masks, run, alive);
    assert forall d :: d in mine.directories <==> IsNeeded(base, policy, d);
    var after := held[run := mine];
    forall d ensures IsHeld(after, d) <==> IsHeld(held, d) || d in mine.directories {
      assert run in after && after[run] == mine;
      assert forall other :: other in held ==> other in after && after[other] == held[other];
    }
  }

  // ----- dropping -----

  /** Midway through a drop: what is left to give back is still listed, and nothing else is left. */
  ghost predicate IsDropping(base: Tree, t: Tree, others: map<Run, HeldMasks>, left: seq<Path>) {
    && IsBase(base) && t.files == base.files && Rooted(t.dirs)
    && (forall run :: run in others ==> IsHolding(base, others[run], run))
    && (forall d, run :: (d, run) in t.markers <==> run in others && d in others[run].directories)
    && (forall d :: d in base.dirs || IsHeld(others, d) ==> d in t.dirs)
    && (forall d :: d in t.dirs ==> d in base.dirs || IsHeld(others, d) || d in left)
    && ParentsFollow(base, left)
  }

  lemma HeldParentIsHeld(base: Tree, others: map<Run, HeldMasks>, d: Path)
    requires forall run :: run in others ==> IsHolding(base, others[run], run)
    requires d != [] && IsHeld(others, d) && Parent(d) !in base.dirs
    ensures IsHeld(others, Parent(d))
  {
    var run :| run in others && d in others[run].directories;
    var i :| 0 <= i < |others[run].directories| && others[run].directories[i] == d;
    assert IsFollowed(base, others[run].directories, i);
  }

  /** A directory only this run held goes away at its last turn, for its own children went before it. */
  lemma LastTurnRemoves(base: Tree, t: Tree, others: map<Run, HeldMasks>, left: seq<Path>)
    requires IsDropping(base, t, others, left) && left != []
    requires left[0] in t.dirs && !IsHeld(others, left[0]) && left[0] !in left[1..]
    ensures left[0] != [] && IsEmptyDirectory(t, left[0])
  {
    var d := left[0];
    assert IsFollowed(base, left, 0);
    forall m | m in t.markers ensures m.0 != d {
      assert (m.0, m.1) in t.markers;
    }
    forall c | c in t.dirs && c != [] ensures Parent(c) != d {
      if IsHeld(others, c) && Parent(c) !in base.dirs {
        HeldParentIsHeld(base, others, c);
      } else if c !in base.dirs && c in left {
        var i :| 0 <= i < |left| && left[i] == c;
        assert IsFollowed(base, left, i);
        assert forall p :: p in left[i + 1..] ==> p in left[1..];
      }
    }
  }

  lemma HeldStays(base: Tree, t: Tree, others: map<Run, HeldMasks>, left: seq<Path>, d: Path)
    requires IsDropping(base, t, others, left) && IsHeld(others, d)
    ensures IsMarked(t, d)
  {
    var run :| run in others && d in others[run].directories;
    assert (d, run) in t.markers;
  }

  lemma DropStep(base: Tree, t: Tree, others: map<Run, HeldMasks>, left: seq<Path>)
    requires IsDropping(base, t, others, left) && left != []
    ensures IsDropping(base, RemoveDirectory(t, left[0]), others, left[1..])
  {
    var d, u := left[0], RemoveDirectory(t, left[0]);
    assert IsFollowed(base, left, 0);
    if IsHeld(others, d) {
      HeldStays(base, t, others, left, d);
    } else if d in t.dirs && d !in left[1..] {
      LastTurnRemoves(base, t, others, left);
    }
    forall i | 0 <= i < |left[1..]| ensures IsFollowed(base, left[1..], i) {
      assert IsFollowed(base, left, i + 1);
      assert left[1..][i + 1..] == left[i + 1 + 1..];
    }
    assert left == [d] + left[1..];
  }

  lemma {:induction false} DropEach(base: Tree, t: Tree, others: map<Run, HeldMasks>, left: seq<Path>)
    requires IsDropping(base, t, others, left)
    ensures IsDropping(base, RemoveEach(t, left), others, [])
    decreases |left|
  {
    if left != [] {
      DropStep(base, t, others, left);
      DropEach(base, RemoveDirectory(t, left[0]), others, left[1..]);
    }
  }

  lemma BalancedIsRooted(base: Tree, t: Tree, held: map<Run, HeldMasks>)
    requires Balanced(base, t, held)
    ensures Rooted(t.dirs)
  {
    forall d | d in t.dirs && d != [] ensures Parent(d) in t.dirs {
      if d !in base.dirs && Parent(d) !in base.dirs {
        HeldParentIsHeld(base, held, d);
      }
    }
  }

  /** A whole drop keeps the balance of the runs that stay, whatever parents they share with this one. */
  lemma DropBalances(base: Tree, t: Tree, held: map<Run, HeldMasks>, run: Run)
    requires Balanced(base, t, held) && run in held
    ensures Balanced(base, Drop(t, held[run]), held - {run})
  {
    var others, mine := held - {run}, held[run];
    BalancedIsRooted(base, t, held);
    var unmarked := RemoveMarkers(t, mine.markers, run);
    forall d ensures IsHeld(held, d) <==> IsHeld(others, d) || d in mine.directories {
      assert forall other :: other in others ==> other in held && others[other] == held[other];
    }
    assert IsDropping(base, unmarked, others, mine.directories);
    DropEach(base, unmarked, others, mine.directories);
  }

  // ----- whole histories -----

  /** Whole holds, each with the processes that run at its time, and whole drops. */
  datatype Event = Holds(run: Run, policy: ResolvedSandbox, alive: set<nat>) | Drops(run: Run)

  /** The host and the runs that hold masks on it, with the policy each asked for. */
  datatype Site = Site(tree: Tree, held: map<Run, HeldMasks>, policies: map<Run, ResolvedSandbox>)

  /** A run holds once, and no process with masks has died without giving them back. */
  predicate CanHappen(site: Site, event: Event) {
    match event
    case Holds(run, _, alive) => run !in site.held && run.process in alive && HoldersAlive(site.held, alive)
    case Drops(run) => run in site.held
  }

  function After(site: Site, event: Event): Site
    requires CanHappen(site, event)
  {
    match event
    case Holds(run, policy, alive) =>
      var (tree, held) := Hold(site.tree, policy, run, alive);
      Site(tree, site.held[run := held], site.policies[run := policy])
    case Drops(run) => Site(Drop(site.tree, site.held[run]), site.held - {run}, site.policies - {run})
  }

  /** Some live run's policy needs the directory. */
  ghost predicate IsWanted(base: Tree, policies: map<Run, ResolvedSandbox>, d: Path) {
    exists run :: run in policies && IsNeeded(base, policies[run], d)
  }

  /** The mask directories present are exactly the ones the live runs' policies need. */
  ghost predicate IsExact(base: Tree, site: Site) {
    && Balanced(base, site.tree, site.held)
    && site.held.Keys == site.policies.Keys
    && (forall run, d :: run in site.held ==> (d in site.held[run].directories <==> IsNeeded(base, site.policies[run], d)))
    && (forall d :: d in site.tree.dirs <==> d in base.dirs || IsWanted(base, site.policies, d))
  }

  lemma EventIsExact(base: Tree, site: Site, event: Event)
    requires IsExact(base, site) && CanHappen(site, event)
    ensures IsExact(base, After(site, event))
  {
    var after := After(site, event);
    match event {
      case Holds(run, policy, alive) => HoldBalances(base, site.tree, site.held, policy, run, alive);
      case Drops(run) => DropBalances(base, site.tree, site.held, run);
    }
    forall run, d | run in after.held ensures d in after.held[run].directories <==> IsNeeded(base, after.policies[run], d) {
      if run in site.held && run != event.run {
        assert after.held[run] == site.held[run] && after.policies[run] == site.policies[run];
      }
    }
    forall d ensures IsHeld(after.held, d) <==> IsWanted(base, after.policies, d) {
      assert forall run :: run in after.held <==> run in after.policies;
    }
  }

  ghost predicate IsHistory(trace: seq<Site>, events: seq<Event>) {
    && |trace| == |events| + 1
    && forall k :: 0 <= k < |events| ==> CanHappen(trace[k], events[k]) && trace[k + 1] == After(trace[k], events[k])
  }

  /**
   * Over any history of whole holds and drops the mask directories are exactly the live runs' chains,
   * and when no run is left the host is what it was.
   */
  lemma {:induction false} MasksAreExact(base: Tree, trace: seq<Site>, events: seq<Event>, k: nat)
    requires IsBase(base) && IsHistory(trace, events) && trace[0] == Site(base, map[], map[]) && k < |trace|
    ensures IsExact(base, trace[k])
    ensures trace[k].held == map[] ==> trace[k].tree == base
  {
    if k > 0 {
      MasksAreExact(base, trace, events, k - 1);
      EventIsExact(base, trace[k - 1], events[k - 1]);
    }
    if trace[k].held == map[] {
      NoneLeft(base, trace[k]);
    }
  }

  lemma NoneLeft(base: Tree, site: Site)
    requires IsExact(base, site) && site.held == map[]
    ensures site.tree == base
  {
    var unheld: set<(Path, Run)> := {};
    assert forall d, run :: (d, run) in site.tree.markers <==> (d, run) in unheld;
    forall m ensures m in site.tree.markers <==> m in unheld {
      assert m == (m.0, m.1);
    }
    assert forall d :: d in site.tree.dirs <==> d in base.dirs;
    assert site.tree.dirs == base.dirs;
  }
}
