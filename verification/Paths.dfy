/** Absolute, resolved paths as their components from the root. */
module Paths {
  import opened Splitting

  predicate IsName(name: string) {
    name != "" && '/' !in name
  }

  /** The name of a file or a directory in the directory that holds it. */
  type Name = name: string | IsName(name) witness "a"

  type Path = seq<Name>

  /** `inner` is `outer` or lies somewhere below it. */
  predicate Contains(outer: Path, inner: Path) {
    outer <= inner
  }

  function Parent(p: Path): Path
    requires p != []
  {
    p[..|p| - 1]
  }

  /** The root is there, and so is the parent of everything that is there. */
  predicate Rooted(dirs: set<Path>) {
    [] in dirs && forall d :: d in dirs && d != [] ==> Parent(d) in dirs
  }

  lemma {:induction false} RootedHoldsPrefixes(dirs: set<Path>, inner: Path, outer: Path)
    requires Rooted(dirs) && inner in dirs && Contains(outer, inner)
    ensures outer in dirs
    decreases |inner|
  {
    if outer != inner {
      assert Contains(outer, Parent(inner));
      RootedHoldsPrefixes(dirs, Parent(inner), outer);
    } else {
      assert outer == inner;
    }
  }

  // ----- paths as text -----

  function PathText(p: Path): string {
    if p == [] then "/" else if |p| == 1 then "/" + p[0] else PathText(p[..|p| - 1]) + "/" + p[|p| - 1]
  }

  function Names(pieces: seq<string>): Path {
    if pieces == [] then [] else (if IsName(pieces[0]) then [pieces[0]] else []) + Names(pieces[1..])
  }

  /** The path a text names: the names between its slashes. */
  function ReadPath(text: string): Path {
    Names(Split(text, '/'))
  }

  lemma {:induction false} NamesOfPath(p: Path)
    ensures Names(p) == p
  {
    if p != [] {
      NamesOfPath(p[1..]);
    }
  }

  lemma {:induction false} PathTextJoins(p: Path)
    requires p != []
    ensures PathText(p) == "/" + Join(p, '/')
  {
    if |p| > 1 {
      var front, last := p[..|p| - 1], p[|p| - 1];
      PathTextJoins(front);
      JoinPush(front, last, '/');
      assert front + [last] == p;
    }
  }

  lemma {:induction false} JoinPush(parts: seq<string>, last: string, c: char)
    requires parts != []
    ensures Join(parts + [last], c) == Join(parts, c) + [c] + last
  {
    assert (parts + [last])[1..] == parts[1..] + [last];
    if |parts| > 1 {
      JoinPush(parts[1..], last, c);
    } else {
      assert parts[1..] + [last] == [last];
    }
  }

  /** The text of a path names that path and no other. */
  lemma PathReadsBack(p: Path)
    ensures ReadPath(PathText(p)) == p
  {
    if p == [] {
      assert Split("", '/') == [""] && "/"[1..] == "";
      assert Split("/", '/') == [""] + [""];
    } else {
      PathTextJoins(p);
      JoinedSplits(p, '/');
      assert ("/" + Join(p, '/'))[1..] == Join(p, '/');
      assert Split(PathText(p), '/') == [""] + p;
      assert ([""] + p)[1..] == p;
      NamesOfPath(p);
    }
  }

  /** The path itself and everything above it. */
  function Ancestors(p: Path): (r: set<Path>)
    ensures forall d :: d in r <==> Contains(d, p)
  {
    var r := set i | 0 <= i <= |p| :: p[..i];
    assert forall d :: Contains(d, p) ==> d == p[..|d|];
    r
  }
}
