/** Any number of runs holding and giving back masks at once, one file operation at a time. */
module MaskProtocol {
  import opened Paths
  import opened MaskTrees

  /** Where a run is: in the middle of marking one mask, at work, or giving its masks back. */
  datatype Phase =
    | Creating(attempt: nat)
    | Marking(left: nat, attempt: nat)
    | Sweeping(next: nat)
    | Working
    | Unmarking(next: nat)
    | Removing(next: nat)
    | Gone

  /** One run: its masks, how many it has dealt with, and the markers and directories it holds. */
  datatype Holder = Holder(masks: seq<seq<Path>>, mask: nat, phase: Phase, markers: seq<Path>, directories: seq<Path>)

  datatype World = World(tree: Tree, alive: set<nat>, holders: map<Run, Holder>)

  datatype Action =
    | Begin(run: Run, masks: seq<seq<Path>>)
    | MakeOne(run: Run, path: Path)
    | Created(run: Run)
    | CreateFails(run: Run)
    | Mark(run: Run)
    | MarkFails(run: Run)
    | AllMarked(run: Run)
    | Sweep(run: Run, other: Run)
    | SweptOne(run: Run)
    | StartDrop(run: Run)
    | Unmark(run: Run)
    | RemoveOne(run: Run)
    | Crash(process: nat)
    | Spawn(process: nat)
    | ForeignFile(path: Path)
    | ForeignUnlink(path: Path)
    | ForeignDirectory(path: Path)
    | ForeignRmdir(path: Path)

  /** Something other than a run changes the tree or the processes. */
  predicate IsForeign(a: Action) {
    a.Crash? || a.Spawn? || a.ForeignFile? || a.ForeignUnlink? || a.ForeignDirectory? || a.ForeignRmdir?
  }

  // ----- one run's step -----

  function Current(h: Holder): seq<Path> {
    if h.mask < |h.masks| then h.masks[h.mask] else []
  }

  /** Where the run goes once the current mask is dealt with. */
  function NextMask(h: Holder): Holder {
    h.(mask := h.mask + 1, phase := if h.mask + 1 < |h.masks| then Creating(0) else Working)
  }

  function Taken(h: Holder): Holder {
    h.(markers := h.markers + Reversed(Current(h)), directories := h.directories + Current(h), phase := Sweeping(0))
  }

  function WithTree(w: World, t: Tree): World {
    w.(tree := t)
  }

  function WithHolder(w: World, run: Run, h: Holder): World {
    w.(holders := w.holders[run := h])
  }

  predicate CanCreate(t: Tree, p: Path) {
    p != [] && Parent(p) in t.dirs && !Exists(t, p)
  }

  /** Whether an action can happen; runs of a process that ended do nothing any more. */
  predicate Enabled(w: World, a: Action) {
    match a
    case Begin(run, masks) => run !in w.holders && run.process in w.alive && forall i :: 0 <= i < |masks| ==> masks[i] != []
    case Crash(process) => process in w.alive
    case Spawn(process) => process !in w.alive && forall run :: run in w.holders ==> run.process != process
    case ForeignFile(path) => CanCreate(w.tree, path)
    case ForeignUnlink(path) => path in w.tree.files
    case ForeignDirectory(path) => CanCreate(w.tree, path)
    case ForeignRmdir(path) => path != [] && IsEmptyDirectory(w.tree, path)
    case _ => a.run in w.holders && a.run.process in w.alive && HolderEnabled(w.tree, w.alive, w.holders[a.run], a)
  }

  predicate HolderEnabled(t: Tree, alive: set<nat>, h: Holder, a: Action) {
    match a
    case MakeOne(_, path) => h.phase.Creating? && Current(h) != [] && Contains(path, Current(h)[0]) && CanCreate(t, path)
    case Created(_) => h.phase.Creating?
    case CreateFails(_) => h.phase.Creating?
    case Mark(_) => h.phase.Marking? && 0 < h.phase.left <= |Current(h)| && Current(h)[h.phase.left - 1] in t.dirs
    case MarkFails(_) => h.phase.Marking? && 0 < h.phase.left
    case AllMarked(_) => h.phase.Marking? && h.phase.left == 0
    case Sweep(_, other) => h.phase.Sweeping? && h.phase.next < |Current(h)| && other.process !in alive
    case SweptOne(_) => h.phase.Sweeping?
    case StartDrop(_) => h.phase.Working?
    case Unmark(_) => h.phase.Unmarking?
    case RemoveOne(_) => h.phase.Removing?
    case _ => false
  }

  /** The run after its own action. */
  function Moved(h: Holder, a: Action): Holder {
    match a
    case Created(_) => h.(phase := Marking(|Current(h)|, if h.phase.Creating? then h.phase.attempt else 0))
    case CreateFails(_) => NextMask(h)
    case Mark(_) => if h.phase.Marking? && h.phase.left > 0 then h.(phase := Marking(h.phase.left - 1, h.phase.attempt)) else h
    case MarkFails(_) =>
      if h.phase.Marking? && h.phase.attempt + 1 < MARK_ATTEMPTS then h.(phase := Creating(h.phase.attempt + 1)) else NextMask(h)
    case AllMarked(_) => Taken(h)
    case SweptOne(_) =>
      if h.phase.Sweeping? && h.phase.next + 1 < |Current(h)| then h.(phase := Sweeping(h.phase.next + 1)) else NextMask(h)
    case StartDrop(_) => h.(phase := Unmarking(0))
    case Unmark(_) =>
      if h.phase.Unmarking? && h.phase.next < |h.markers| then h.(phase := Unmarking(h.phase.next + 1)) else h.(phase := Removing(0))
    case RemoveOne(_) =>
      if h.phase.Removing? && h.phase.next < |h.directories| then h.(phase := Removing(h.phase.next + 1)) else h.(phase := Gone)
    case _ => h
  }

  /** The tree after one file operation of a run. */
  function Touched(t: Tree, h: Holder, a: Action): Tree {
    match a
    case MakeOne(_, path) => t.(dirs := t.dirs + {path})
    case Mark(run) =>
      if h.phase.Marking? && 0 < h.phase.left <= |Current(h)| then t.(markers := t.markers + {(Current(h)[h.phase.left - 1], run)}) else t
    case Sweep(_, other) =>
      if h.phase.Sweeping? && h.phase.next < |Current(h)| then t.(markers := t.markers - {(Current(h)[h.phase.next], other)}) else t
    case Unmark(run) =>
      if h.phase.Unmarking? && h.phase.next < |h.markers| then t.(markers := t.markers - {(h.markers[h.phase.next], run)}) else t
    case RemoveOne(_) =>
      if h.phase.Removing? && h.phase.next < |h.directories| then RemoveDirectory(t, h.directories[h.phase.next]) else t
    case _ => t
  }

  function Next(w: World, a: Action): World
    requires Enabled(w, a)
  {
    match a
    case Begin(run, masks) => WithHolder(w, run, Holder(masks, 0, if masks == [] then Working else Creating(0), [], []))
    case Crash(process) => w.(alive := w.alive - {process})
    case Spawn(process) => w.(alive := w.alive + {process})
    case ForeignFile(path) => WithTree(w, w.tree.(files := w.tree.files + {path}))
    case ForeignUnlink(path) => WithTree(w, w.tree.(files := w.tree.files - {path}))
    case ForeignDirectory(path) => WithTree(w, w.tree.(dirs := w.tree.dirs + {path}))
    case ForeignRmdir(path) => WithTree(w, RemoveDirectory(w.tree, path))
    case _ =>
      var h := w.holders[a.run];
      WithHolder(WithTree(w, Touched(w.tree, h, a)), a.run, Moved(h, a))
  }

  // ----- the invariant -----

  /** From the moment a mask is marked until the run starts to give back. */
  predicate IsHolding(h: Holder) {
    h.phase.Creating? || h.phase.Marking? || h.phase.Sweeping? || h.phase.Working?
  }

  /** The directories of the current mask that the run has marked in this attempt. */
  predicate IsFreshlyMarked(h: Holder, d: Path) {
    h.phase.Marking? && h.phase.left <= |Current(h)| && d in Current(h)[h.phase.left..]
  }

  /** The run's markers are where it believes they are. */
  ghost predicate IsMarkedBy(t: Tree, run: Run, h: Holder) {
    IsHolding(h) ==> forall d :: d in h.directories || IsFreshlyMarked(h, d) ==> (d, run) in t.markers
  }

  ghost predicate Safe(w: World) {
    && Rooted(w.tree.dirs)
    && (forall m :: m in w.tree.markers ==> m.0 in w.tree.dirs)
    && (forall run :: run in w.holders && run.process in w.alive ==> IsMarkedBy(w.tree, run, w.holders[run]))
    && (forall run :: run in w.holders && w.holders[run].phase.Marking? ==> w.holders[run].phase.left <= |Current(w.holders[run])|)
  }

  /** Removing an empty directory leaves every marker in a directory that exists. */
  lemma RemovingKeepsMarkers(t: Tree, p: Path)
    requires Rooted(t.dirs) && forall m :: m in t.markers ==> m.0 in t.dirs
    ensures Rooted(RemoveDirectory(t, p).dirs) && RemoveDirectory(t, p).markers == t.markers
    ensures forall m :: m in t.markers ==> m.0 in RemoveDirectory(t, p).dirs
  {
    var u := RemoveDirectory(t, p);
    if u != t {
      forall m | m in t.markers ensures m.0 in u.dirs {
        assert m.0 != p;
      }
    }
  }

  lemma CreatingKeepsRooted(t: Tree, p: Path)
    requires Rooted(t.dirs) && CanCreate(t, p)
    ensures Rooted(t.dirs + {p})
  {
  }

  /** What a run does to the tree never takes a marker of another living run. */
  lemma TouchedKeeps(t: Tree, alive: set<nat>, run: Run, h: Holder, a: Action)
    requires Rooted(t.dirs) && forall m :: m in t.markers ==> m.0 in t.dirs
    requires HolderEnabled(t, alive, h, a) && !IsForeign(a) && a.run == run
    ensures var u := Touched(t, h, a);
            && Rooted(u.dirs) && (forall m :: m in u.markers ==> m.0 in u.dirs)
            && (forall m :: m in t.markers && m.1.process in alive && !(m.1 == run && a.Unmark?) ==> m in u.markers)
  {
    if a.RemoveOne? && h.phase.next < |h.directories| {
      RemovingKeepsMarkers(t, h.directories[h.phase.next]);
    } else if a.MakeOne? {
      CreatingKeepsRooted(t, a.path);
    }
  }

  /** A run's own markers keep up with what it believes. */
  lemma MovedIsMarked(t: Tree, alive: set<nat>, run: Run, h: Holder, a: Action)
    requires HolderEnabled(t, alive, h, a) && !IsForeign(a) && a.run == run
    requires run.process in alive && IsMarkedBy(t, run, h) && (h.phase.Marking? ==> h.phase.left <= |Current(h)|)
    ensures IsMarkedBy(Touched(t, h, a), run, Moved(h, a))
    ensures Moved(h, a).phase.Marking? ==> Moved(h, a).phase.left <= |Current(Moved(h, a))|
  {
    var g, u := Moved(h, a), Touched(t, h, a);
    match a {
      case Created(_) => assert Current(g)[|Current(g)|..] == [];
      case Mark(_) =>
        assert Current(h)[h.phase.left - 1..] == [Current(h)[h.phase.left - 1]] + Current(h)[h.phase.left..];
      case AllMarked(_) => assert Current(h)[0..] == Current(h);
      case _ =>
    }
  }

  lemma HolderStepIsSafe(w: World, a: Action)
    requires Safe(w) && Enabled(w, a)
    requires !a.Begin? && !IsForeign(a)
    ensures Safe(Next(w, a))
  {
    var h, v := w.holders[a.run], Next(w, a);
    TouchedKeeps(w.tree, w.alive, a.run, h, a);
    MovedIsMarked(w.tree, w.alive, a.run, h, a);
    forall run | run in v.holders && run.process in v.alive ensures IsMarkedBy(v.tree, run, v.holders[run]) {
      if run != a.run {
        assert IsMarkedBy(w.tree, run, w.holders[run]);
      }
    }
  }

  lemma BeginIsSafe(w: World, a: Action)
    requires Safe(w) && Enabled(w, a) && a.Begin?
    ensures Safe(Next(w, a))
  {
    var v := Next(w, a);
    forall other | other in v.holders && other.process in v.alive ensures IsMarkedBy(v.tree, other, v.holders[other]) {
      if other != a.run { assert IsMarkedBy(w.tree, other, w.holders[other]); }
    }
  }

  lemma ForeignIsSafe(w: World, a: Action)
    requires Safe(w) && Enabled(w, a) && IsForeign(a)
    ensures Safe(Next(w, a))
  {
    match a {
      case ForeignDirectory(path) => CreatingKeepsRooted(w.tree, path);
      case ForeignRmdir(path) => RemovingKeepsMarkers(w.tree, path);
      case _ =>
    }
  }

  lemma StepIsSafe(w: World, a: Action)
    requires Safe(w) && Enabled(w, a)
    ensures Safe(Next(w, a))
  {
    if a.Begin? {
      BeginIsSafe(w, a);
    } else if IsForeign(a) {
      ForeignIsSafe(w, a);
    } else {
      HolderStepIsSafe(w, a);
    }
  }

  // ----- giving back -----

  /** The markers the run has given back are gone, and stay gone. */
  ghost predicate IsGivenBack(t: Tree, run: Run, h: Holder) {
    forall i :: 0 <= i < |h.markers| && ((h.phase.Unmarking? && i < h.phase.next) || h.phase.Removing? || h.phase.Gone?) ==>
      (h.markers[i], run) !in t.markers
  }

  ghost predicate AllGivenBack(w: World) {
    forall run :: run in w.holders ==> IsGivenBack(w.tree, run, w.holders[run])
  }

  /** No step of another run, and nothing foreign, brings a marker back or takes a file of the host. */
  lemma StepGivesBack(w: World, a: Action)
    requires AllGivenBack(w) && Enabled(w, a)
    ensures AllGivenBack(Next(w, a))
    ensures !IsForeign(a) ==> Next(w, a).tree.files == w.tree.files
  {
    var v := Next(w, a);
    forall run | run in v.holders ensures IsGivenBack(v.tree, run, v.holders[run]) {
      if run in w.holders {
        assert IsGivenBack(w.tree, run, w.holders[run]);
      }
    }
  }

  ghost predicate IsHistory(trace: seq<World>, actions: seq<Action>) {
    && |trace| == |actions| + 1
    && forall k :: 0 <= k < |actions| ==> Enabled(trace[k], actions[k]) && trace[k + 1] == Next(trace[k], actions[k])
  }

  /** A living run has marked a mask that needs the directory, and has not started to give back. */
  predicate Holds(w: World, run: Run, d: Path) {
    run in w.holders && run.process in w.alive && IsHolding(w.holders[run]) && d in w.holders[run].directories
  }

  /**
   * Whatever the runs interleave and whatever else changes the tree, every directory of a mask that a living
   * run has marked exists until that run starts to give its masks back.
   */
  lemma {:induction false} HeldDirectoriesExist(trace: seq<World>, actions: seq<Action>, k: nat, run: Run, d: Path)
    requires IsHistory(trace, actions) && k < |trace|
    requires Rooted(trace[0].tree.dirs) && trace[0].tree.markers == {} && trace[0].holders == map[]
    ensures Safe(trace[k])
    ensures Holds(trace[k], run, d) ==> d in trace[k].tree.dirs
  {
    if k > 0 {
      HeldDirectoriesExist(trace, actions, k - 1, run, d);
      StepIsSafe(trace[k - 1], actions[k - 1]);
    }
    var w := trace[k];
    if Holds(w, run, d) {
      assert IsMarkedBy(w.tree, run, w.holders[run]);
      assert (d, run) in w.tree.markers && (d, run).0 == d;
    }
  }

  /** Once a run is done giving back, none of the markers it held is left, and no host file was taken by any run. */
  lemma {:induction false} DropsTakeMarkersBack(trace: seq<World>, actions: seq<Action>, k: nat)
    requires IsHistory(trace, actions) && k < |trace| && trace[0].holders == map[]
    ensures AllGivenBack(trace[k])
    ensures (forall n :: 0 <= n < k ==> !IsForeign(actions[n])) ==> trace[k].tree.files == trace[0].tree.files
  {
    if k > 0 {
      DropsTakeMarkersBack(trace, actions, k - 1);
      StepGivesBack(trace[k - 1], actions[k - 1]);
    }
  }

  // ----- from marking a mask to giving it back -----

  /** While a run deals with a mask, the mask is one of its own. */
  predicate IsAtMask(h: Holder) {
    h.phase.Creating? || h.phase.Marking? || h.phase.Sweeping? ==> h.mask < |h.masks|
  }

  lemma {:induction false} RunsAreAtMasks(trace: seq<World>, actions: seq<Action>, k: nat)
    requires IsHistory(trace, actions) && k < |trace| && trace[0].holders == map[]
    ensures forall run :: run in trace[k].holders ==> IsAtMask(trace[k].holders[run])
  {
    if k > 0 {
      RunsAreAtMasks(trace, actions, k - 1);
      var w, v := trace[k - 1], trace[k];
      forall run | run in v.holders ensures IsAtMask(v.holders[run]) {
        if run in w.holders {
          assert IsAtMask(w.holders[run]);
        }
      }
    }
  }

  /** The lists of a run and its masks at one moment, continued at a later one. */
  predicate IsContinued(h: Holder, g: Holder) {
    h.masks == g.masks && h.directories <= g.directories && h.markers <= g.markers
  }

  /** What the run has at one moment it still has at the next, and it goes on holding unless it starts to give back. */
  predicate Follows(w: World, v: World, run: Run, gives: bool) {
    run in w.holders ==>
      && run in v.holders && IsContinued(w.holders[run], v.holders[run])
      && (IsHolding(w.holders[run]) && !gives ==> IsHolding(v.holders[run]))
  }

  lemma StepFollows(w: World, a: Action, run: Run)
    requires Enabled(w, a)
    ensures Follows(w, Next(w, a), run, a == StartDrop(run))
  {
  }

  lemma {:induction false} WorldsFollow(trace: seq<World>, actions: seq<Action>, k: nat, n: nat, run: Run)
    requires |trace| == |actions| + 1 && k <= n < |trace|
    requires forall m :: k <= m < n ==> Follows(trace[m], trace[m + 1], run, actions[m] == StartDrop(run))
    ensures Follows(trace[k], trace[n], run, exists m :: k <= m < n && actions[m] == StartDrop(run))
  {
    if k < n {
      WorldsFollow(trace, actions, k, n - 1, run);
      assert Follows(trace[n - 1], trace[n], run, actions[n - 1] == StartDrop(run));
    }
  }

  lemma ListsContinue(trace: seq<World>, actions: seq<Action>, k: nat, n: nat, run: Run)
    requires IsHistory(trace, actions) && k <= n < |trace| && run in trace[k].holders
    ensures run in trace[n].holders && IsContinued(trace[k].holders[run], trace[n].holders[run])
    ensures IsHolding(trace[k].holders[run]) && (forall m :: k <= m < n ==> actions[m] != StartDrop(run)) ==> IsHolding(trace[n].holders[run])
  {
    forall m | k <= m < n ensures Follows(trace[m], trace[m + 1], run, actions[m] == StartDrop(run)) {
      StepFollows(trace[m], actions[m], run);
    }
    WorldsFollow(trace, actions, k, n, run);
  }

  /** In the step `k` the run has marked every directory of one of its masks. */
  predicate HasMarked(trace: seq<World>, actions: seq<Action>, k: nat, run: Run, mask: seq<Path>)
    requires |trace| == |actions| + 1
  {
    k < |actions| && actions[k] == AllMarked(run) && run in trace[k].holders
    && var h := trace[k].holders[run]; h.mask < |h.masks| && h.masks[h.mask] == mask
  }

  lemma MarkedIsListed(w: World, run: Run)
    requires Enabled(w, AllMarked(run)) && w.holders[run].mask < |w.holders[run].masks|
    ensures var h, g := w.holders[run], Next(w, AllMarked(run)).holders[run];
            IsHolding(g) && forall d :: d in h.masks[h.mask] ==> d in g.directories && d in g.markers
  {
  }

  /** Marking ends with one of the run's own masks, and from then on its lists hold every directory of that mask. */
  lemma MarkedMaskStaysListed(trace: seq<World>, actions: seq<Action>, k: nat, n: nat, run: Run)
    requires IsHistory(trace, actions) && trace[0].holders == map[]
    requires k < n < |trace| && actions[k] == AllMarked(run)
    ensures exists mask :: HasMarked(trace, actions, k, run, mask)
    ensures forall mask :: HasMarked(trace, actions, k, run, mask) ==>
              run in trace[n].holders && forall d :: d in mask ==> d in trace[n].holders[run].directories && d in trace[n].holders[run].markers
  {
    RunsAreAtMasks(trace, actions, k);
    var h := trace[k].holders[run];
    assert IsAtMask(h);
    assert HasMarked(trace, actions, k, run, h.masks[h.mask]);
    MarkedIsListed(trace[k], run);
    ListsContinue(trace, actions, k + 1, n, run);
  }

  /**
   * Told on what happens alone: from the moment a run has marked a mask until it starts to give its masks back, each
   * directory of the mask exists while the run lives, whatever other runs and the host do meanwhile.
   */
  lemma MarkedMasksExist(trace: seq<World>, actions: seq<Action>, k: nat, n: nat, run: Run, mask: seq<Path>)
    requires IsHistory(trace, actions)
    requires Rooted(trace[0].tree.dirs) && trace[0].tree.markers == {} && trace[0].holders == map[]
    requires HasMarked(trace, actions, k, run, mask) && k < n < |trace| && run.process in trace[n].alive
    requires forall m :: k < m < n ==> actions[m] != StartDrop(run)
    ensures forall d :: d in mask ==> d in trace[n].tree.dirs && (d, run) in trace[n].tree.markers
  {
    MarkedMaskStaysListed(trace, actions, k, n, run);
    MarkedIsListed(trace[k], run);
    ListsContinue(trace, actions, k + 1, n, run);
    forall d | d in mask ensures d in trace[n].tree.dirs && (d, run) in trace[n].tree.markers {
      HeldDirectoriesExist(trace, actions, n, run, d);
      assert Holds(trace[n], run, d);
      assert IsMarkedBy(trace[n].tree, run, trace[n].holders[run]);
    }
  }

  /** A run that has given everything back has left no marker of its own in any directory of a mask it marked. */
  lemma MarkedMasksAreGivenBack(trace: seq<World>, actions: seq<Action>, k: nat, n: nat, run: Run, mask: seq<Path>)
    requires IsHistory(trace, actions) && trace[0].holders == map[]
    requires HasMarked(trace, actions, k, run, mask) && k < n < |trace|
    requires run in trace[n].holders && trace[n].holders[run].phase.Gone?
    ensures forall d :: d in mask ==> (d, run) !in trace[n].tree.markers
  {
    MarkedMaskStaysListed(trace, actions, k, n, run);
    DropsTakeMarkersBack(trace, actions, n);
    forall d | d in mask ensures (d, run) !in trace[n].tree.markers {
      var h := trace[n].holders[run];
      assert IsGivenBack(trace[n].tree, run, h);
      var i :| 0 <= i < |h.markers| && h.markers[i] == d;
    }
  }

  /** A round that finds a directory missing is followed by another one for the same mask, but for the fourth round. */
  lemma FourRounds(h: Holder, run: Run)
    requires h.phase.Marking?
    ensures var g := Moved(h, MarkFails(run));
            if h.phase.attempt < 3 then g == h.(phase := Creating(h.phase.attempt + 1))
            else g.mask == h.mask + 1 && g.markers == h.markers && g.directories == h.directories
  {
  }
}
