/** The bubblewrap mount list of one resolved sandbox, where the last mount over a path decides. */
module Mounts {
  import opened Outcomes
  import opened Paths
  import opened Sandboxes
  import opened MaskTrees

  datatype Mount =
    | RoBind(source: Path, target: Path)
    | Bind(source: Path, target: Path)
    | Tmpfs(target: Path)
    | Dev(target: Path)
    | Proc(target: Path)

  const ROOT: Path := []
  const DEV: Path := ["dev"]
  const NULL_DEVICE: Path := ["dev", "null"]
  const PROC: Path := ["proc"]
  const TMP: Path := ["tmp"]

  /** Where the two bridge sockets and the empty mask directory live. */
  datatype Bridge = Bridge(directory: Path, empty: Path, httpSocket: Path, socksSocket: Path)

  // ----- the list -----

  function BaseMounts(resolved: ResolvedSandbox): seq<Mount> {
    [RoBind(ROOT, ROOT), Dev(DEV), Proc(PROC)] + if TMP in resolved.writeAllow then [] else [Tmpfs(TMP)]
  }

  function AllowMounts(allowed: seq<Path>): seq<Mount> {
    if allowed == [] then [] else AllowMounts(allowed[..|allowed| - 1]) + [Bind(allowed[|allowed| - 1], allowed[|allowed| - 1])]
  }

  /** Ancestors bound onto themselves, the missing ones skipped. */
  function AncestorMounts(t: Tree, ancestors: seq<Path>): seq<Mount> {
    if ancestors == [] then []
    else
      var last := ancestors[|ancestors| - 1];
      AncestorMounts(t, ancestors[..|ancestors| - 1]) + if Exists(t, last) then [Bind(last, last)] else []
  }

  /** An empty directory of this run masks the path. */
  predicate IsCovered(t: Tree, resolved: ResolvedSandbox, denied: Path) {
    InsideWriteAllow(resolved, denied) && MaskDirectories(t, denied) != []
  }

  function DenyMount(t: Tree, resolved: ResolvedSandbox, bridge: Bridge, denied: Path): seq<Mount> {
    if IsCovered(t, resolved, denied) then [RoBind(bridge.empty, denied)]
    else if Exists(t, denied) then [RoBind(denied, denied)]
    else []
  }

  function DenyMounts(t: Tree, resolved: ResolvedSandbox, bridge: Bridge, denied: seq<Path>): seq<Mount> {
    if denied == [] then []
    else DenyMounts(t, resolved, bridge, denied[..|denied| - 1]) + DenyMount(t, resolved, bridge, denied[|denied| - 1])
  }

  function ReadDenyMount(t: Tree, p: Path): Mount {
    if p in t.dirs then Tmpfs(p) else RoBind(NULL_DEVICE, p)
  }

  function ReadDenyMounts(t: Tree, denied: seq<Path>): seq<Mount> {
    if denied == [] then [] else ReadDenyMounts(t, denied[..|denied| - 1]) + [ReadDenyMount(t, denied[|denied| - 1])]
  }

  function MountList(t: Tree, resolved: ResolvedSandbox, bridge: Bridge): seq<Mount> {
    BaseMounts(resolved) + AllowMounts(resolved.writeAllow) + AncestorMounts(t, ProtectedAncestors(resolved))
    + DenyMounts(t, resolved, bridge, resolved.writeDeny) + ReadDenyMounts(t, resolved.readDeny)
    + [Bind(bridge.directory, bridge.directory)]
  }

  // ----- what the list means -----

  /** The mount a path of the sandbox belongs to: the last one over it. */
  function Deciding(mounts: seq<Mount>, x: Path): (r: Option<Mount>)
    ensures r.Some? ==> r.value in mounts && Contains(r.value.target, x)
  {
    if mounts == [] then None
    else if Contains(mounts[|mounts| - 1].target, x) then Some(mounts[|mounts| - 1])
    else Deciding(mounts[..|mounts| - 1], x)
  }

  /** Writing the path writes the same path of the host. */
  predicate IsHostWritable(mounts: seq<Mount>, x: Path) {
    var m := Deciding(mounts, x);
    m.Some? && m.value.Bind? && m.value.source == m.value.target
  }

  /** Reading the path reads the same path of the host. */
  predicate IsHostReadable(mounts: seq<Mount>, x: Path) {
    var m := Deciding(mounts, x);
    m.Some? && (m.value.Bind? || m.value.RoBind?) && m.value.source == m.value.target
  }

  /** The path is where a mount begins, which pins it in place. */
  predicate IsMountPoint(mounts: seq<Mount>, x: Path) {
    var m := Deciding(mounts, x);
    m.Some? && m.value.target == x
  }

  lemma {:induction false} LaterMountsDecide(one: seq<Mount>, other: seq<Mount>, x: Path)
    ensures Deciding(one + other, x) == if Deciding(other, x).Some? then Deciding(other, x) else Deciding(one, x)
  {
    var all := one + other;
    if other == [] {
      assert all == one;
    } else {
      assert all[..|all| - 1] == one + other[..|other| - 1];
      LaterMountsDecide(one, other[..|other| - 1], x);
    }
  }

  lemma {:induction false} AllowsDecide(allowed: seq<Path>, x: Path)
    ensures Deciding(AllowMounts(allowed), x).Some? <==> IsUnder(allowed, x)
    ensures forall m :: m in AllowMounts(allowed) ==> m.Bind? && m.source == m.target
  {
    if allowed != [] {
      var front, last := allowed[..|allowed| - 1], allowed[|allowed| - 1];
      AllowsDecide(front, x);
      LaterMountsDecide(AllowMounts(front), [Bind(last, last)], x);
      assert Deciding([Bind(last, last)], x).Some? <==> Contains(last, x) by {
        assert [Bind(last, last)][..0] == [];
      }
      UnderLast(allowed, x);
    }
  }

  lemma UnderLast(paths: seq<Path>, x: Path)
    requires paths != []
    ensures IsUnder(paths, x) <==> IsUnder(paths[..|paths| - 1], x) || Contains(paths[|paths| - 1], x)
  {
    assert forall i :: 0 <= i < |paths| - 1 ==> paths[..|paths| - 1][i] == paths[i];
  }

  lemma {:induction false} AncestorsDecide(t: Tree, ancestors: seq<Path>, x: Path)
    ensures var m := Deciding(AncestorMounts(t, ancestors), x);
            m.Some? ==> m.value.Bind? && m.value.source == m.value.target && m.value.target in ancestors
  {
    if ancestors != [] {
      var front, last := ancestors[..|ancestors| - 1], ancestors[|ancestors| - 1];
      AncestorsDecide(t, front, x);
      LaterMountsDecide(AncestorMounts(t, front), if Exists(t, last) then [Bind(last, last)] else [], x);
    }
  }

  /** A file system without links: what exists lies in a directory, and marks are in directories. */
  ghost predicate IsTree(t: Tree) {
    && Rooted(t.dirs)
    && (forall f :: f in t.files ==> f != [] && Parent(f) in t.dirs)
    && (forall m :: m in t.markers ==> m.0 in t.dirs)
  }

  lemma ExistingPrefixesExist(t: Tree, outer: Path, inner: Path)
    requires IsTree(t) && Exists(t, inner) && Contains(outer, inner)
    ensures Exists(t, outer)
  {
    if inner in t.dirs {
      RootedHoldsPrefixes(t.dirs, inner, outer);
    } else if outer != inner {
      assert Contains(outer, Parent(inner));
      RootedHoldsPrefixes(t.dirs, Parent(inner), outer);
    } else {
      assert outer == inner;
    }
  }

  /** Some denied path over `x` that gets a mount: it exists, or it is masked. */
  predicate HasDenyMount(t: Tree, resolved: ResolvedSandbox, denied: seq<Path>, x: Path) {
    exists i :: 0 <= i < |denied| && Contains(denied[i], x) && (IsCovered(t, resolved, denied[i]) || Exists(t, denied[i]))
  }

  lemma DenyDecides(t: Tree, resolved: ResolvedSandbox, bridge: Bridge, denied: Path, x: Path)
    ensures Deciding(DenyMount(t, resolved, bridge, denied), x).Some? <==>
            Contains(denied, x) && (IsCovered(t, resolved, denied) || Exists(t, denied))
    ensures forall m :: m in DenyMount(t, resolved, bridge, denied) ==> m.RoBind?
  {
    var mine := DenyMount(t, resolved, bridge, denied);
    if mine != [] {
      assert mine[..0] == [];
    }
  }

  lemma DenyMountLast(t: Tree, resolved: ResolvedSandbox, denied: seq<Path>, x: Path)
    requires denied != []
    ensures HasDenyMount(t, resolved, denied, x) <==>
            var last := denied[|denied| - 1];
            HasDenyMount(t, resolved, denied[..|denied| - 1], x) || (Contains(last, x) && (IsCovered(t, resolved, last) || Exists(t, last)))
  {
    assert forall i :: 0 <= i < |denied| - 1 ==> denied[..|denied| - 1][i] == denied[i];
  }

  lemma {:induction false} DeniesDecide(t: Tree, resolved: ResolvedSandbox, bridge: Bridge, denied: seq<Path>, x: Path)
    ensures Deciding(DenyMounts(t, resolved, bridge, denied), x).Some? <==> HasDenyMount(t, resolved, denied, x)
    ensures forall m :: m in DenyMounts(t, resolved, bridge, denied) ==> m.RoBind?
  {
    if denied != [] {
      var front, last := denied[..|denied| - 1], denied[|denied| - 1];
      DeniesDecide(t, resolved, bridge, front, x);
      DenyDecides(t, resolved, bridge, last, x);
      LaterMountsDecide(DenyMounts(t, resolved, bridge, front), DenyMount(t, resolved, bridge, last), x);
      DenyMountLast(t, resolved, denied, x);
    }
  }

  /** Under a writable directory every denied path gets a mount, whether it exists yet or not. */
  lemma DeniedIsMounted(t: Tree, resolved: ResolvedSandbox, x: Path)
    requires IsTree(t) && forall a :: a in resolved.writeAllow ==> Exists(t, a)
    requires IsUnder(resolved.writeAllow, x) && IsUnder(resolved.writeDeny, x)
    ensures HasDenyMount(t, resolved, resolved.writeDeny, x)
  {
    var a :| 0 <= a < |resolved.writeAllow| && Contains(resolved.writeAllow[a], x);
    var d :| 0 <= d < |resolved.writeDeny| && Contains(resolved.writeDeny[d], x);
    var allowed, denied := resolved.writeAllow[a], resolved.writeDeny[d];
    if |allowed| < |denied| {
      assert Contains(allowed, denied);
      assert InsideWriteAllow(resolved, denied);
      assert IsCovered(t, resolved, denied) || Exists(t, denied);
    } else {
      assert Contains(denied, allowed);
      ExistingPrefixesExist(t, denied, allowed);
    }
  }

  lemma {:induction false} ReadDeniesDecide(t: Tree, denied: seq<Path>, x: Path)
    ensures Deciding(ReadDenyMounts(t, denied), x).Some? <==> IsUnder(denied, x)
    ensures forall m :: m in ReadDenyMounts(t, denied) ==> m.Tmpfs? || (m.RoBind? && m.source == NULL_DEVICE)
  {
    if denied != [] {
      var front, last := denied[..|denied| - 1], denied[|denied| - 1];
      ReadDeniesDecide(t, front, x);
      LaterMountsDecide(ReadDenyMounts(t, front), [ReadDenyMount(t, last)], x);
      assert Deciding([ReadDenyMount(t, last)], x).Some? <==> Contains(last, x) by {
        assert [ReadDenyMount(t, last)][..0] == [];
      }
      UnderLast(denied, x);
    }
  }

  lemma BaseDecides(resolved: ResolvedSandbox, x: Path)
    ensures var m := Deciding(BaseMounts(resolved), x); m.Some? && !m.value.Bind?
  {
    var mounts := BaseMounts(resolved);
    assert mounts[0] == RoBind(ROOT, ROOT);
    FirstDecidesAtLeast(mounts, x);
  }

  lemma {:induction false} FirstDecidesAtLeast(mounts: seq<Mount>, x: Path)
    requires mounts != [] && Contains(mounts[0].target, x)
    ensures Deciding(mounts, x).Some?
  {
    if |mounts| > 1 {
      FirstDecidesAtLeast(mounts[..|mounts| - 1], x);
    }
  }

  /** Which group of the list decides over a path. */
  lemma GroupDecides(t: Tree, resolved: ResolvedSandbox, bridge: Bridge, x: Path)
    ensures Deciding(MountList(t, resolved, bridge), x) ==
            if Contains(bridge.directory, x) then Some(Bind(bridge.directory, bridge.directory))
            else if Deciding(ReadDenyMounts(t, resolved.readDeny), x).Some? then Deciding(ReadDenyMounts(t, resolved.readDeny), x)
            else if Deciding(DenyMounts(t, resolved, bridge, resolved.writeDeny), x).Some? then
              Deciding(DenyMounts(t, resolved, bridge, resolved.writeDeny), x)
            else if Deciding(AncestorMounts(t, ProtectedAncestors(resolved)), x).Some? then
              Deciding(AncestorMounts(t, ProtectedAncestors(resolved)), x)
            else if Deciding(AllowMounts(resolved.writeAllow), x).Some? then Deciding(AllowMounts(resolved.writeAllow), x)
            else Deciding(BaseMounts(resolved), x)
  {
    var base, allows, ancestors := BaseMounts(resolved), AllowMounts(resolved.writeAllow), AncestorMounts(t, ProtectedAncestors(resolved));
    var denies, readDenies := DenyMounts(t, resolved, bridge, resolved.writeDeny), ReadDenyMounts(t, resolved.readDeny);
    var last := [Bind(bridge.directory, bridge.directory)];
    LaterMountsDecide(base, allows, x);
    LaterMountsDecide(base + allows, ancestors, x);
    LaterMountsDecide(base + allows + ancestors, denies, x);
    LaterMountsDecide(base + allows + ancestors + denies, readDenies, x);
    LaterMountsDecide(base + allows + ancestors + denies + readDenies, last, x);
    assert last[..0] == [];
  }

  lemma AncestorsAreAllowed(t: Tree, resolved: ResolvedSandbox, x: Path)
    ensures var m := Deciding(AncestorMounts(t, ProtectedAncestors(resolved)), x);
            m.Some? ==> m.value.Bind? && m.value.source == m.value.target && IsUnder(resolved.writeAllow, x)
  {
    AncestorsDecide(t, ProtectedAncestors(resolved), x);
    ProtectedAncestorsAre(resolved);
    var m := Deciding(AncestorMounts(t, ProtectedAncestors(resolved)), x);
    if m.Some? {
      var i :| 0 <= i < |resolved.writeAllow| && Contains(resolved.writeAllow[i], m.value.target) && m.value.target != resolved.writeAllow[i];
      assert Contains(resolved.writeAllow[i], x);
    }
  }

  /** The policy lets the path be written. */
  predicate MayWrite(resolved: ResolvedSandbox, x: Path) {
    IsUnder(resolved.writeAllow, x) && !IsUnder(resolved.writeDeny, x)
  }

  /**
   * In the mount list a path is host-writable exactly when the policy lets it be written and read, or it is
   * in the bridge directory; a deny counts even before its path exists, and even when it lies above an allow.
   */
  lemma WritableExactly(t: Tree, resolved: ResolvedSandbox, bridge: Bridge, x: Path)
    requires IsTree(t) && forall a :: a in resolved.writeAllow ==> Exists(t, a)
    ensures IsHostWritable(MountList(t, resolved, bridge), x) <==>
            Contains(bridge.directory, x) || (!IsUnder(resolved.readDeny, x) && MayWrite(resolved, x))
  {
    GroupDecides(t, resolved, bridge, x);
    ReadDeniesDecide(t, resolved.readDeny, x);
    DeniesDecide(t, resolved, bridge, resolved.writeDeny, x);
    AncestorsAreAllowed(t, resolved, x);
    AllowsDecide(resolved.writeAllow, x);
    BaseDecides(resolved, x);
    if IsUnder(resolved.writeAllow, x) && IsUnder(resolved.writeDeny, x) {
      DeniedIsMounted(t, resolved, x);
    }
  }

  /** The read denies as they are resolved: sorted, so parents come first, and of paths that exist. */
  ghost predicate AreResolved(t: Tree, denied: seq<Path>) {
    && (forall p :: p in denied ==> Exists(t, p))
    && forall i, j :: 0 <= i < j < |denied| ==> !Contains(denied[j], denied[i])
  }

  /** Nothing exists below a file, so a denied file decides over itself. */
  lemma {:induction false} DeniedFileDecides(t: Tree, denied: seq<Path>, f: Path)
    requires IsTree(t) && AreResolved(t, denied) && f in denied && f !in t.dirs
    ensures forall x :: Contains(f, x) ==> Deciding(ReadDenyMounts(t, denied), x) == Some(ReadDenyMount(t, f))
  {
    var front, last := denied[..|denied| - 1], denied[|denied| - 1];
    var mine := [ReadDenyMount(t, last)];
    forall x | Contains(f, x) ensures Deciding(ReadDenyMounts(t, denied), x) == Some(ReadDenyMount(t, f)) {
      LaterMountsDecide(ReadDenyMounts(t, front), mine, x);
      assert mine[..0] == [];
      if last != f {
        assert f in front;
        if Contains(last, x) {
          EitherContains(f, last, x);
          if Contains(f, last) {
            FilesHoldNothing(t, f, last);
          }
        }
        DeniedFileDecides(t, front, f);
      }
    }
  }

  lemma EitherContains(a: Path, b: Path, x: Path)
    requires Contains(a, x) && Contains(b, x)
    ensures Contains(a, b) || Contains(b, a)
  {
    if |a| <= |b| {
      assert b[..|a|] == x[..|a|] == a;
    } else {
      assert a[..|b|] == x[..|b|] == b;
    }
  }

  lemma FilesHoldNothing(t: Tree, f: Path, inner: Path)
    requires IsTree(t) && f !in t.dirs && Contains(f, inner) && f != inner
    ensures !Exists(t, inner)
  {
    if Exists(t, inner) {
      var parent := Parent(inner);
      assert Contains(f, parent) && parent in t.dirs;
      RootedHoldsPrefixes(t.dirs, parent, f);
    }
  }

  /**
   * A path that may not be read is never the host's outside the bridge directory, but for one: a denied null
   * device hides behind itself.
   */
  lemma ReadDeniedIsHidden(t: Tree, resolved: ResolvedSandbox, bridge: Bridge, x: Path)
    requires IsTree(t) && AreResolved(t, resolved.readDeny)
    requires IsUnder(resolved.readDeny, x) && !Contains(bridge.directory, x)
    ensures IsHostReadable(MountList(t, resolved, bridge), x) <==>
            NULL_DEVICE in resolved.readDeny && NULL_DEVICE !in t.dirs && Contains(NULL_DEVICE, x)
  {
    GroupDecides(t, resolved, bridge, x);
    ReadDeniesDecide(t, resolved.readDeny, x);
    ReadDenySources(t, resolved.readDeny);
    if NULL_DEVICE in resolved.readDeny && NULL_DEVICE !in t.dirs {
      DeniedFileDecides(t, resolved.readDeny, NULL_DEVICE);
    }
  }

  lemma {:induction false} ReadDenySources(t: Tree, denied: seq<Path>)
    ensures forall m :: m in ReadDenyMounts(t, denied) ==> m.target in denied && m == ReadDenyMount(t, m.target)
  {
    if denied != [] {
      ReadDenySources(t, denied[..|denied| - 1]);
    }
  }

  /** A path the policy says nothing about is the host's own, read-only, but for fresh devices, processes and temporary files. */
  lemma OtherPathsAreReadOnly(t: Tree, resolved: ResolvedSandbox, bridge: Bridge, x: Path)
    requires !IsUnder(resolved.writeAllow, x) && !IsUnder(resolved.writeDeny, x) && !IsUnder(resolved.readDeny, x)
    requires !Contains(bridge.directory, x)
    ensures Deciding(MountList(t, resolved, bridge), x) ==
            Some(if Contains(["tmp"], x) then Tmpfs(["tmp"])
                 else if Contains(["proc"], x) then Proc(["proc"])
                 else if Contains(["dev"], x) then Dev(["dev"])
                 else RoBind([], []))
  {
    GroupDecides(t, resolved, bridge, x);
    ReadDeniesDecide(t, resolved.readDeny, x);
    DeniesDecide(t, resolved, bridge, resolved.writeDeny, x);
    AncestorsAreAllowed(t, resolved, x);
    AllowsDecide(resolved.writeAllow, x);
    BaseIsExact(resolved, x);
  }

  lemma BaseIsExact(resolved: ResolvedSandbox, x: Path)
    requires !IsUnder(resolved.writeAllow, x)
    ensures Deciding(BaseMounts(resolved), x) ==
            Some(if Contains(["tmp"], x) then Tmpfs(["tmp"])
                 else if Contains(["proc"], x) then Proc(["proc"])
                 else if Contains(["dev"], x) then Dev(["dev"])
                 else RoBind([], []))
  {
    var root, dev, proc, tmp := [RoBind(ROOT, ROOT)], [Dev(DEV)], [Proc(PROC)], [Tmpfs(TMP)];
    assert root + dev + proc == [RoBind(ROOT, ROOT), Dev(DEV), Proc(PROC)];
    LaterMountsDecide(root, dev, x);
    LaterMountsDecide(root + dev, proc, x);
    LaterMountsDecide(root + dev + proc, tmp, x);
    assert root[..0] == [] && dev[..0] == [] && proc[..0] == [] && tmp[..0] == [];
    if TMP in resolved.writeAllow {
      var i :| 0 <= i < |resolved.writeAllow| && resolved.writeAllow[i] == TMP;
      assert !Contains(TMP, x);
      assert BaseMounts(resolved) == root + dev + proc;
    } else {
      assert BaseMounts(resolved) == root + dev + proc + tmp;
    }
  }

  // ----- what a denied path shows -----

  lemma {:induction false} DeniedDecidesOverItself(t: Tree, resolved: ResolvedSandbox, bridge: Bridge, denied: seq<Path>, d: Path)
    requires d in denied && DenyMount(t, resolved, bridge, d) != []
    requires forall i, j :: 0 <= i < j < |denied| ==> !Contains(denied[j], denied[i])
    ensures Deciding(DenyMounts(t, resolved, bridge, denied), d) == Some(DenyMount(t, resolved, bridge, d)[0])
  {
    var front, last := denied[..|denied| - 1], denied[|denied| - 1];
    var mine := DenyMount(t, resolved, bridge, last);
    LaterMountsDecide(DenyMounts(t, resolved, bridge, front), mine, d);
    if d == last {
      assert Contains(d, d) && mine[..0] == [];
    } else {
      assert d in front && !Contains(last, d);
      DeniedDecidesOverItself(t, resolved, bridge, front, d);
      if mine != [] { assert mine[..0] == []; }
    }
  }

  /**
   * A denied path inside a writable directory that is missing, or stands in for a mask, shows the empty directory, so
   * nothing can be made there. Any other denied path that exists is its own read-only mount.
   */
  lemma DeniedShowsItselfOrNothing(t: Tree, resolved: ResolvedSandbox, bridge: Bridge, d: Path)
    requires d in resolved.writeDeny && !IsUnder(resolved.readDeny, d) && !Contains(bridge.directory, d)
    requires forall i, j :: 0 <= i < j < |resolved.writeDeny| ==> !Contains(resolved.writeDeny[j], resolved.writeDeny[i])
    ensures InsideWriteAllow(resolved, d) && (!Exists(t, d) || IsMarked(t, d)) ==>
              Deciding(MountList(t, resolved, bridge), d) == Some(RoBind(bridge.empty, d))
    ensures Exists(t, d) && !(InsideWriteAllow(resolved, d) && IsMarked(t, d)) ==>
              Deciding(MountList(t, resolved, bridge), d) == Some(RoBind(d, d))
  {
    GroupDecides(t, resolved, bridge, d);
    ReadDeniesDecide(t, resolved.readDeny, d);
    if IsCovered(t, resolved, d) || Exists(t, d) {
      DeniedDecidesOverItself(t, resolved, bridge, resolved.writeDeny, d);
    }
  }

  // ----- renaming -----

  lemma {:induction false} AncestorIsItsOwnMount(t: Tree, ancestors: seq<Path>, a: Path)
    requires a in ancestors && Exists(t, a)
    requires forall i, j :: 0 <= i < j < |ancestors| ==> !Contains(ancestors[j], ancestors[i])
    ensures Deciding(AncestorMounts(t, ancestors), a) == Some(Bind(a, a))
  {
    var front, last := ancestors[..|ancestors| - 1], ancestors[|ancestors| - 1];
    var mine := if Exists(t, last) then [Bind(last, last)] else [];
    LaterMountsDecide(AncestorMounts(t, front), mine, a);
    if a == last {
      assert Contains(a, a);
    } else {
      assert a in front && !Contains(last, a);
      AncestorIsItsOwnMount(t, front, a);
      if mine != [] { assert mine[..0] == []; }
    }
  }

  /** A writable parent of a denied path is a mount point of its own, so no task can move it aside. */
  lemma WritableParentsStay(t: Tree, resolved: ResolvedSandbox, bridge: Bridge, a: Path)
    requires a in ProtectedAncestors(resolved) && Exists(t, a)
    requires IsHostWritable(MountList(t, resolved, bridge), a) && !Contains(bridge.directory, a)
    ensures IsMountPoint(MountList(t, resolved, bridge), a)
  {
    GroupDecides(t, resolved, bridge, a);
    ReadDeniesDecide(t, resolved.readDeny, a);
    DeniesDecide(t, resolved, bridge, resolved.writeDeny, a);
    ProtectedAncestorsAre(resolved);
    AncestorIsItsOwnMount(t, ProtectedAncestors(resolved), a);
  }

  // ----- the masks -----

  lemma MaskStartsAtPath(t: Tree, p: Path)
    ensures MaskDirectories(t, p) != [] ==> MaskDirectories(t, p)[0] == p
  {
  }

  /** The plan holds a mask for a path exactly when the path is denied and covered. */
  lemma {:induction false} PlanCovers(t: Tree, resolved: ResolvedSandbox, denied: seq<Path>)
    ensures forall m :: m in MaskPlan(t, resolved, denied) <==>
              m != [] && m[0] in denied && IsCovered(t, resolved, m[0]) && m == MaskDirectories(t, m[0])
  {
    if denied != [] {
      PlanCovers(t, resolved, denied[1..]);
      MaskStartsAtPath(t, denied[0]);
      assert denied == [denied[0]] + denied[1..];
    }
  }
}
