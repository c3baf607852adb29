/**
 * Recursive deletion by path.
 *
 * Every system call names its file by the string in the path buffer, which the
 * kernel resolves anew each time, so a path may stop resolving while the very
 * directories it runs through are being deleted.  The file system here is a
 * graph of nodes with symbolic links that are followed during resolution, calls
 * may fail at any moment, and a name may be cut when the buffer is full.  In all
 * of these cases nothing outside the subtree changes; success leaves exactly the
 * file system with the subtree emptied and its entry gone; and when nothing
 * fails, success depends only on whether the path still resolves once the
 * subtree is empty.
 */
module DirDelete {
  import opened Basics
  import P = UnixPath
  import L = DirListing

  type Ino = nat
  type Name = seq<char>
  type Path = seq<char>

  // ---------- The file system ----------

  /**
   * A directory keeps its entries apart from `.` and `..` in `entries`; `order` is the order they are
   * read in, dots included, and `typed` are those whose type is reported on reading.
   */
  datatype Node =
    | File
    | Link(rooted: bool, target: seq<Name>)
    | Directory(parent: Ino, entries: map<Name, Ino>, order: seq<Name>, typed: set<Name>)

  type FileSystem = map<Ino, Node>

  /**
   * Where resolution starts, which calls fail, and for each node its height in the physical tree and the
   * length of the longest path below it.
   */
  datatype World = World(root: Ino, cwd: Ino, fails: nat -> bool, height: Ino -> nat, reach: Ino -> nat)

  function NodeAt(fs: FileSystem, i: Ino): Node {
    if i in fs then fs[i] else File
  }

  predicate IsDir(fs: FileSystem, i: Ino) {
    NodeAt(fs, i).Directory?
  }

  function Entries(fs: FileSystem, d: Ino): map<Name, Ino> {
    if IsDir(fs, d) then fs[d].entries else map[]
  }

  predicate Below(w: World, d: Ino, name: Name, i: Ino) {
    w.height(i) < w.height(d) && |name| + 1 + w.reach(i) <= w.reach(d)
  }

  predicate NameOk(w: World, d: Ino, name: Name) {
    (P.IsName(name) || P.IsDots(name)) && |name| <= w.reach(d)
  }

  ghost predicate DirectoryOk(w: World, fs: FileSystem, d: Ino)
    requires IsDir(fs, d)
  {
    && fs[d].parent in fs && fs[fs[d].parent].Directory?
    && (forall name :: name in fs[d].entries ==> P.IsName(name) && name in fs[d].order && Below(w, d, name, fs[d].entries[name]))
    && (forall i :: 0 <= i < |fs[d].order| ==> NameOk(w, d, fs[d].order[i]))
    && (forall i, j :: 0 <= i < j < |fs[d].order| ==> fs[d].order[i] != fs[d].order[j])
  }

  /** The directories form a tree; hard links to files and symbolic links to anywhere are allowed. */
  ghost predicate Sane(w: World, fs: FileSystem) {
    forall d :: IsDir(fs, d) ==> DirectoryOk(w, fs, d)
  }

  // ---------- Resolving a path ----------

  const MAX_LINKS: nat := 40

  /** The node the components lead to, every link on the way followed. */
  function Walk(fs: FileSystem, root: Ino, at: Ino, cs: seq<Name>, links: nat): Option<Ino>
    decreases links, |cs|
  {
    if cs == [] then Some(at)
    else if !IsDir(fs, at) then None
    else if cs[0] == P.DOT then Walk(fs, root, at, cs[1..], links)
    else if cs[0] == P.DOTDOT then Walk(fs, root, fs[at].parent, cs[1..], links)
    else if cs[0] !in Entries(fs, at) then None
    else
      var i := Entries(fs, at)[cs[0]];
      if NodeAt(fs, i).Link? then
        if links == 0 then None
        else Walk(fs, root, if fs[i].rooted then root else at, fs[i].target + cs[1..], links - 1)
      else Walk(fs, root, i, cs[1..], links)
  }

  function Start(w: World, path: Path): Ino {
    if P.Rooted(path) then w.root else w.cwd
  }

  function Resolve(w: World, fs: FileSystem, path: Path): Option<Ino> {
    if path == [] then None else Walk(fs, w.root, Start(w, path), P.Components(path), MAX_LINKS)
  }

  predicate Slashed(path: Path) {
    path != [] && path[|path| - 1] == '/'
  }

  /** An entry, by its directory and its name. */
  datatype Spot = Spot(dir: Ino, name: Name)

  /** The entry a path names, the last component not followed. */
  function SpotOf(w: World, fs: FileSystem, path: Path): Option<Spot> {
    var cs := P.Components(path);
    if cs == [] || !P.IsName(cs[|cs| - 1]) then None
    else
      match Walk(fs, w.root, Start(w, path), cs[..|cs| - 1], MAX_LINKS)
      case None => None
      case Some(d) => if cs[|cs| - 1] in Entries(fs, d) then Some(Spot(d, cs[|cs| - 1])) else None
  }

  function At(fs: FileSystem, s: Spot): Ino {
    if s.name in Entries(fs, s.dir) then Entries(fs, s.dir)[s.name] else 0
  }

  /** A final link is not followed, unless a separator comes after it. */
  function Stat(w: World, fs: FileSystem, path: Path): Option<Ino> {
    var cs := P.Components(path);
    if Slashed(path) || (cs != [] && P.IsDots(cs[|cs| - 1])) then
      match Resolve(w, fs, path)
      case Some(i) => if IsDir(fs, i) then Some(i) else None
      case None => None
    else
      match SpotOf(w, fs, path)
      case Some(s) => Some(At(fs, s))
      case None => None
  }

  /** The file system without an entry. */
  function Removed(fs: FileSystem, s: Spot): FileSystem {
    if IsDir(fs, s.dir) then fs[s.dir := fs[s.dir].(entries := fs[s.dir].entries - {s.name})] else fs
  }

  function Unlink(w: World, fs: FileSystem, path: Path): Option<FileSystem> {
    match SpotOf(w, fs, path)
    case Some(s) => if !Slashed(path) && !IsDir(fs, At(fs, s)) then Some(Removed(fs, s)) else None
    case None => None
  }

  function RemoveDir(w: World, fs: FileSystem, path: Path): Option<FileSystem> {
    match SpotOf(w, fs, path)
    case Some(s) =>
      if IsDir(fs, At(fs, s)) && Entries(fs, At(fs, s)) == map[] then Some(Removed(fs, s)) else None
    case None => None
  }

  // ---------- What deletion amounts to ----------

  /** The directories of a subtree. */
  ghost function Sub(w: World, fs: FileSystem, i: Ino): set<Ino>
    requires Sane(w, fs)
    decreases w.height(i)
  {
    if !IsDir(fs, i) then {}
    else
      assert DirectoryOk(w, fs, i);
      {i} + set name, x | name in Entries(fs, i) && x in Sub(w, fs, Entries(fs, i)[name]) :: x
  }

  function Emptied(fs: FileSystem, dirs: set<Ino>): FileSystem {
    map i | i in fs :: if i in dirs && fs[i].Directory? then fs[i].(entries := map[]) else fs[i]
  }

  /** The subtree a path names, emptied. */
  ghost function Hollow(w: World, fs: FileSystem, path: Path): FileSystem
    requires Sane(w, fs)
  {
    match Stat(w, fs, path)
    case Some(i) => Emptied(fs, Sub(w, fs, i))
    case None => fs
  }

  /** The path names something, and still names it once the subtree is empty. */
  ghost predicate Removable(w: World, fs: FileSystem, path: Path)
    requires Sane(w, fs)
  {
    && Stat(w, fs, path).Some?
    && var s := SpotOf(w, Hollow(w, fs, path), path);
       s.Some? && At(fs, s.value) == Stat(w, fs, path).value
  }

  /** The path leads to a directory, and still does once the subtree is empty. */
  ghost predicate Persists(w: World, fs: FileSystem, path: Path)
    requires Sane(w, fs)
  {
    && Stat(w, fs, path).Some? && IsDir(fs, Stat(w, fs, path).value)
    && Resolve(w, Hollow(w, fs, path), path) == Stat(w, fs, path)
  }

  /** The outcome of a successful deletion. */
  ghost function After(w: World, fs: FileSystem, path: Path): FileSystem
    requires Sane(w, fs)
  {
    match SpotOf(w, Hollow(w, fs, path), path)
    case Some(s) => Removed(Hollow(w, fs, path), s)
    case None => fs
  }

  predicate Like(n: Node, n': Node) {
    if n.Directory? then
      && n'.Directory? && n' == n.(entries := n'.entries)
      && forall name :: name in n'.entries ==> name in n.entries && n'.entries[name] == n.entries[name]
    else n' == n
  }

  /** The same nodes, with some entries gone. */
  ghost predicate Less(fs: FileSystem, fs': FileSystem) {
    fs'.Keys == fs.Keys && forall i :: i in fs ==> Like(fs[i], fs'[i])
  }

  /** An entry is still there, or its directory was empty when it went. */
  ghost predicate Cleared(fs: FileSystem, fs': FileSystem, d: Ino, name: Name) {
    name in Entries(fs, d) && name !in Entries(fs', d) ==> Entries(fs', Entries(fs, d)[name]) == map[]
  }

  /** Entries went only from these directories, and no directory went with anything inside. */
  ghost predicate Pruned(fs: FileSystem, fs': FileSystem, dirs: set<Ino>) {
    && Less(fs, fs')
    && (forall i :: i !in dirs ==> NodeAt(fs', i) == NodeAt(fs, i))
    && (forall d, name :: Cleared(fs, fs', d, name))
  }

  // ---------- Paths that grow by a name ----------

  lemma PathSlash(path: Path)
    requires path != []
    ensures P.Components(path + "/") == P.Components(path)
    ensures P.Rooted(path + "/") == P.Rooted(path) && Slashed(path + "/")
  {
    P.ComponentsConcat(path, "/");
    assert "/"[1..] == "" && P.Components("/") == [];
    assert P.Components(path) + [] == P.Components(path);
  }

  lemma PathChild(path: Path, name: Name)
    requires Slashed(path) && P.IsComponent(name)
    ensures P.Components(path + name) == P.Components(path) + [name]
    ensures P.Rooted(path + name) == P.Rooted(path) && !Slashed(path + name)
  {
    P.ComponentsConcat(path, name);
    P.ComponentsOne(name);
    assert (path + name)[|path + name| - 1] == name[|name| - 1];
  }

  /** Below an open directory, a path names an entry of that directory. */
  lemma ChildSpot(w: World, fs: FileSystem, path: Path, name: Name)
    requires Slashed(path) && P.IsName(name)
    ensures var r := Resolve(w, fs, path);
            && SpotOf(w, fs, path + name) ==
               (if r.Some? && name in Entries(fs, r.value) then Some(Spot(r.value, name)) else None)
            && Stat(w, fs, path + name) ==
               (if r.Some? && name in Entries(fs, r.value) then Some(Entries(fs, r.value)[name]) else None)
  {
    PathChild(path, name);
    var cs := P.Components(path + name);
    assert cs[..|cs| - 1] == P.Components(path);
  }

  lemma {:induction false} WalkSnoc(fs: FileSystem, root: Ino, at: Ino, cs: seq<Name>, links: nat, c: Name, d: Ino)
    requires Walk(fs, root, at, cs, links) == Some(d) && IsDir(fs, d)
    requires c in Entries(fs, d) && !P.IsDots(c) ==> !NodeAt(fs, Entries(fs, d)[c]).Link?
    requires P.IsDots(c) || c in Entries(fs, d)
    ensures Walk(fs, root, at, cs + [c], links) ==
            Some(if c == P.DOT then d else if c == P.DOTDOT then fs[d].parent else Entries(fs, d)[c])
    decreases links, |cs|
  {
    if cs == [] {
      assert cs + [c] == [c] && [c][1..] == [];
    } else {
      assert (cs + [c])[1..] == cs[1..] + [c];
      if cs[0] == P.DOT {
        WalkSnoc(fs, root, at, cs[1..], links, c, d);
      } else if cs[0] == P.DOTDOT {
        WalkSnoc(fs, root, fs[at].parent, cs[1..], links, c, d);
      } else {
        var i := Entries(fs, at)[cs[0]];
        if NodeAt(fs, i).Link? {
          assert fs[i].target + (cs[1..] + [c]) == fs[i].target + cs[1..] + [c];
          WalkSnoc(fs, root, if fs[i].rooted then root else at, fs[i].target + cs[1..], links - 1, c, d);
        } else {
          WalkSnoc(fs, root, i, cs[1..], links, c, d);
        }
      }
    }
  }

  lemma SpotResolves(w: World, fs: FileSystem, path: Path)
    requires SpotOf(w, fs, path).Some? && !NodeAt(fs, At(fs, SpotOf(w, fs, path).value)).Link?
    ensures Resolve(w, fs, path) == Some(At(fs, SpotOf(w, fs, path).value))
  {
    var cs := P.Components(path);
    assert cs == cs[..|cs| - 1] + [cs[|cs| - 1]];
    WalkSnoc(fs, w.root, Start(w, path), cs[..|cs| - 1], MAX_LINKS, cs[|cs| - 1], SpotOf(w, fs, path).value.dir);
  }

  /** A directory found without following a last link is found again with a separator after it. */
  lemma StatResolves(w: World, fs: FileSystem, path: Path)
    requires path != []
    ensures Resolve(w, fs, path + "/") == Resolve(w, fs, path)
    ensures Stat(w, fs, path).Some? && IsDir(fs, Stat(w, fs, path).value) ==> Resolve(w, fs, path) == Stat(w, fs, path)
    ensures SpotOf(w, fs, path + "/") == SpotOf(w, fs, path)
  {
    PathSlash(path);
    var s := SpotOf(w, fs, path);
    if s.Some? && IsDir(fs, At(fs, s.value)) {
      SpotResolves(w, fs, path);
    }
  }

  // ---------- Fewer entries ----------

  /** With fewer entries a path leads to the same node or nowhere. */
  lemma {:induction false} WalkShrinks(fs: FileSystem, fs': FileSystem, root: Ino, at: Ino, cs: seq<Name>, links: nat)
    requires Less(fs, fs')
    ensures Walk(fs', root, at, cs, links) in {None, Walk(fs, root, at, cs, links)}
    decreases links, |cs|
  {
    if cs != [] && IsDir(fs', at) {
      assert Like(fs[at], fs'[at]);
      if cs[0] == P.DOT {
        WalkShrinks(fs, fs', root, at, cs[1..], links);
      } else if cs[0] == P.DOTDOT {
        WalkShrinks(fs, fs', root, fs[at].parent, cs[1..], links);
      } else if cs[0] in Entries(fs', at) {
        var i := Entries(fs', at)[cs[0]];
        assert i in fs ==> Like(fs[i], fs'[i]);
        if NodeAt(fs', i).Link? {
          if links > 0 {
            WalkShrinks(fs, fs', root, if fs[i].rooted then root else at, fs[i].target + cs[1..], links - 1);
          }
        } else {
          WalkShrinks(fs, fs', root, i, cs[1..], links);
        }
      }
    }
  }

  lemma ResolveShrinks(w: World, fs: FileSystem, fs': FileSystem, path: Path)
    requires Less(fs, fs')
    ensures Resolve(w, fs', path) in {None, Resolve(w, fs, path)}
  {
    WalkShrinks(fs, fs', w.root, Start(w, path), P.Components(path), MAX_LINKS);
  }

  lemma LessTrans(a: FileSystem, b: FileSystem, c: FileSystem)
    requires Less(a, b) && Less(b, c)
    ensures Less(a, c)
  {
    forall i | i in a
      ensures Like(a[i], c[i])
    {
      assert Like(a[i], b[i]) && Like(b[i], c[i]);
    }
  }

  lemma LessEntries(fs: FileSystem, fs': FileSystem, d: Ino)
    requires Less(fs, fs')
    ensures IsDir(fs', d) == IsDir(fs, d) && (IsDir(fs, d) ==> fs'[d] == fs[d].(entries := fs'[d].entries))
    ensures forall name :: name in Entries(fs', d) ==> name in Entries(fs, d) && Entries(fs', d)[name] == Entries(fs, d)[name]
  {
    assert d in fs ==> Like(fs[d], fs'[d]);
  }

  lemma SaneShrinks(w: World, fs: FileSystem, fs': FileSystem)
    requires Sane(w, fs) && Less(fs, fs')
    ensures Sane(w, fs')
  {
    forall d | IsDir(fs', d)
      ensures DirectoryOk(w, fs', d)
    {
      LessEntries(fs, fs', d);
      assert DirectoryOk(w, fs, d);
      LessEntries(fs, fs', fs[d].parent);
    }
  }

  lemma SubChild(w: World, fs: FileSystem, d: Ino, name: Name)
    requires Sane(w, fs) && name in Entries(fs, d)
    ensures Sub(w, fs, Entries(fs, d)[name]) <= Sub(w, fs, d)
  {
  }

  /** No directory lies below itself. */
  lemma {:induction false} SubIsLower(w: World, fs: FileSystem, i: Ino, x: Ino)
    requires Sane(w, fs) && x in Sub(w, fs, i)
    ensures w.height(x) <= w.height(i)
    decreases w.height(i)
  {
    if x != i {
      var name := Via(w, fs, i, x);
      SubIsLower(w, fs, Entries(fs, i)[name], x);
    }
  }

  lemma {:induction false} SubShrinks(w: World, fs: FileSystem, fs': FileSystem, i: Ino)
    requires Sane(w, fs) && Sane(w, fs') && Less(fs, fs')
    ensures Sub(w, fs', i) <= Sub(w, fs, i)
    decreases w.height(i)
  {
    LessEntries(fs, fs', i);
    if IsDir(fs', i) {
      assert DirectoryOk(w, fs', i);
      forall name | name in Entries(fs', i)
        ensures Sub(w, fs', Entries(fs', i)[name]) <= Sub(w, fs, i)
      {
        SubShrinks(w, fs, fs', Entries(fs', i)[name]);
        SubChild(w, fs, i, name);
      }
    }
  }

  lemma PrunedTrans(a: FileSystem, b: FileSystem, c: FileSystem, dirs: set<Ino>)
    requires Pruned(a, b, dirs) && Pruned(b, c, dirs)
    ensures Pruned(a, c, dirs)
  {
    LessTrans(a, b, c);
    forall d, name
      ensures Cleared(a, c, d, name)
    {
      assert Cleared(a, b, d, name) && Cleared(b, c, d, name);
      LessEntries(a, b, d);
      if name in Entries(a, d) {
        LessEntries(b, c, Entries(a, d)[name]);
      }
    }
  }

  lemma PrunedNothing(fs: FileSystem, dirs: set<Ino>)
    ensures Pruned(fs, fs, dirs)
  {
  }

  /** Removing an entry that has nothing below it. */
  lemma RemovedPruned(fs: FileSystem, s: Spot)
    requires s.name in Entries(fs, s.dir) && Entries(fs, At(fs, s)) == map[]
    ensures Pruned(fs, Removed(fs, s), {s.dir})
    ensures Entries(Removed(fs, s), s.dir) == Entries(fs, s.dir) - {s.name}
  {
    var fs' := Removed(fs, s);
    assert Less(fs, fs');
    forall d, name
      ensures Cleared(fs, fs', d, name)
    {
    }
  }

  lemma EmptiedPruned(w: World, fs: FileSystem, i: Ino)
    requires Sane(w, fs)
    ensures Pruned(fs, Emptied(fs, Sub(w, fs, i)), Sub(w, fs, i))
  {
    var dirs := Sub(w, fs, i);
    var fs' := Emptied(fs, dirs);
    forall d, name
      ensures Cleared(fs, fs', d, name)
    {
      if name in Entries(fs, d) && name !in Entries(fs', d) {
        SubClosed(w, fs, i, d, name);
      }
    }
  }

  /** A subtree holds everything below its members. */
  lemma {:induction false} SubClosed(w: World, fs: FileSystem, i: Ino, d: Ino, name: Name)
    requires Sane(w, fs) && d in Sub(w, fs, i) && name in Entries(fs, d)
    ensures Sub(w, fs, Entries(fs, d)[name]) <= Sub(w, fs, i)
    decreases w.height(i)
  {
    if d == i {
      SubChild(w, fs, i, name);
    } else {
      var via := Via(w, fs, i, d);
      SubClosed(w, fs, Entries(fs, i)[via], d, name);
      SubChild(w, fs, i, via);
    }
  }

  /** The entry that leads down to a member of a subtree. */
  lemma Via(w: World, fs: FileSystem, i: Ino, x: Ino) returns (name: Name)
    requires Sane(w, fs) && x in Sub(w, fs, i) && x != i
    ensures name in Entries(fs, i) && x in Sub(w, fs, Entries(fs, i)[name])
    ensures w.height(Entries(fs, i)[name]) < w.height(i)
  {
    assert DirectoryOk(w, fs, i);
    name :| name in Entries(fs, i) && x in Sub(w, fs, Entries(fs, i)[name]);
  }

  /** When the top is empty, so is everything that was below it. */
  lemma {:induction false} AllEmpty(w: World, fs: FileSystem, fs': FileSystem, i: Ino)
    requires Sane(w, fs) && Less(fs, fs') && (forall d, name :: Cleared(fs, fs', d, name))
    requires Entries(fs', i) == map[]
    ensures forall x :: x in Sub(w, fs, i) ==> Entries(fs', x) == map[]
    decreases w.height(i)
  {
    if IsDir(fs, i) {
      assert DirectoryOk(w, fs, i);
      forall name, x | name in Entries(fs, i) && x in Sub(w, fs, Entries(fs, i)[name])
        ensures Entries(fs', x) == map[]
      {
        assert Cleared(fs, fs', i, name);
        AllEmpty(w, fs, fs', Entries(fs, i)[name]);
      }
    }
  }

  /** A pruned subtree whose top is empty is the emptied subtree. */
  lemma EmptiedIs(w: World, fs: FileSystem, fs': FileSystem, i: Ino)
    requires Sane(w, fs) && Pruned(fs, fs', Sub(w, fs, i)) && Entries(fs', i) == map[]
    ensures fs' == Emptied(fs, Sub(w, fs, i))
  {
    AllEmpty(w, fs, fs', i);
    forall x | x in fs
      ensures fs'[x] == Emptied(fs, Sub(w, fs, i))[x]
    {
      LessEntries(fs, fs', x);
      assert x !in Sub(w, fs, i) ==> NodeAt(fs', x) == NodeAt(fs, x);
      assert Like(fs[x], fs'[x]);
      if x in Sub(w, fs, i) {
        SubAreDirs(w, fs, i, x);
      }
    }
  }

  lemma {:induction false} SubAreDirs(w: World, fs: FileSystem, i: Ino, x: Ino)
    requires Sane(w, fs) && x in Sub(w, fs, i)
    ensures IsDir(fs, x)
    decreases w.height(i)
  {
    if x != i {
      var name := Via(w, fs, i, x);
      SubAreDirs(w, fs, Entries(fs, i)[name], x);
    }
  }

  lemma PrunedWiden(fs: FileSystem, fs': FileSystem, some: set<Ino>, more: set<Ino>)
    requires Pruned(fs, fs', some) && some <= more
    ensures Pruned(fs, fs', more)
  {
  }

  // ---------- One deletion ----------

  lemma FileRemoved(w: World, fs: FileSystem, path: Path)
    requires Sane(w, fs) && Stat(w, fs, path).Some? && !IsDir(fs, Stat(w, fs, path).value)
    ensures Removable(w, fs, path) && Unlink(w, fs, path) == Some(After(w, fs, path))
  {
    assert Hollow(w, fs, path) == fs;
  }

  /** Removing the top of a pruned subtree succeeds only on the emptied one, and then on the entry that was named. */
  lemma DirectoryRemoved(w: World, fs: FileSystem, fs': FileSystem, path: Path, i: Ino)
    requires Sane(w, fs) && path != [] && Stat(w, fs, path) == Some(i) && IsDir(fs, i)
    requires Pruned(fs, fs', Sub(w, fs, i)) && RemoveDir(w, fs', path).Some?
    ensures Removable(w, fs, path) && RemoveDir(w, fs', path) == Some(After(w, fs, path))
  {
    SpotResolves(w, fs', path);
    StatResolves(w, fs, path);
    ResolveShrinks(w, fs, fs', path);
    EmptiedIs(w, fs, fs', i);
    LessEntries(fs, fs', SpotOf(w, fs', path).value.dir);
  }

  lemma DirectoryRemovable(w: World, fs: FileSystem, fs': FileSystem, path: Path, i: Ino)
    requires Sane(w, fs) && Stat(w, fs, path) == Some(i) && IsDir(fs, i)
    requires Pruned(fs, fs', Sub(w, fs, i)) && Removable(w, fs, path) && Entries(fs', i) == map[]
    ensures RemoveDir(w, fs', path).Some?
  {
    EmptiedIs(w, fs, fs', i);
    var s := SpotOf(w, fs', path).value;
    LessEntries(fs, fs', s.dir);
    LessEntries(fs, fs', i);
  }

  lemma Removal(w: World, fs: FileSystem, fs': FileSystem, path: Path, path': Path, i: Ino)
    requires Sane(w, fs) && path != [] && Stat(w, fs, path) == Some(i) && IsDir(fs, i)
    requires Pruned(fs, fs', Sub(w, fs, i)) && path' in {path, path + "/"}
    ensures RemoveDir(w, fs', path').Some? ==>
              Removable(w, fs, path) && RemoveDir(w, fs', path') == Some(After(w, fs, path))
    ensures Removable(w, fs, path) && Entries(fs', i) == map[] ==> RemoveDir(w, fs', path').Some?
  {
    StatResolves(w, fs', path);
    assert RemoveDir(w, fs', path') == RemoveDir(w, fs', path);
    if RemoveDir(w, fs', path).Some? {
      DirectoryRemoved(w, fs, fs', path, i);
    } else if Removable(w, fs, path) && Entries(fs', i) == map[] {
      DirectoryRemovable(w, fs, fs', path, i);
    }
  }

  /** After a deletion the subtree is empty, its own entry is gone, and every other node is as it was. */
  lemma AfterIs(w: World, fs: FileSystem, path: Path)
    requires Sane(w, fs) && Removable(w, fs, path)
    ensures var dirs := Sub(w, fs, Stat(w, fs, path).value);
            var s, fs' := SpotOf(w, Hollow(w, fs, path), path).value, After(w, fs, path);
            && s.dir !in dirs && Entries(fs', s.dir) == Entries(fs, s.dir) - {s.name}
            && (forall x :: x in dirs ==> Entries(fs', x) == map[])
            && (forall x :: x !in dirs && x != s.dir ==> NodeAt(fs', x) == NodeAt(fs, x))
  {
    var h := Hollow(w, fs, path);
    var s := SpotOf(w, h, path).value;
    HollowIs(w, fs, path);
    assert s.name in Entries(h, s.dir);
    RemovedIs(h, s);
  }

  lemma HollowIs(w: World, fs: FileSystem, path: Path)
    requires Sane(w, fs) && Stat(w, fs, path).Some?
    ensures var dirs, h := Sub(w, fs, Stat(w, fs, path).value), Hollow(w, fs, path);
            && (forall x :: x in dirs ==> Entries(h, x) == map[])
            && (forall x :: x !in dirs ==> NodeAt(h, x) == NodeAt(fs, x))
  {
  }

  lemma RemovedIs(fs: FileSystem, s: Spot)
    requires IsDir(fs, s.dir)
    ensures Entries(Removed(fs, s), s.dir) == Entries(fs, s.dir) - {s.name}
    ensures forall x :: x != s.dir ==> NodeAt(Removed(fs, s), x) == NodeAt(fs, x)
  {
  }

  /** A path that ends at a link deletes the link and nothing else. */
  lemma LinkIsNotFollowed(w: World, fs: FileSystem, path: Path, s: Spot)
    requires Sane(w, fs) && !Slashed(path) && SpotOf(w, fs, path) == Some(s) && NodeAt(fs, At(fs, s)).Link?
    ensures Removable(w, fs, path) && After(w, fs, path) == Removed(fs, s)
  {
    FileRemoved(w, fs, path);
  }

  /**
   * With a separator after it the link is followed: what is named is the directory it leads to, and its
   * own entry is never removed.
   */
  lemma TrailingSeparatorFollows(w: World, fs: FileSystem, path: Path, s: Spot)
    requires Sane(w, fs) && Slashed(path) && SpotOf(w, fs, path) == Some(s) && NodeAt(fs, At(fs, s)).Link?
    ensures !Removable(w, fs, path)
    ensures Resolve(w, fs, path).Some? && IsDir(fs, Resolve(w, fs, path).value) ==> Stat(w, fs, path) == Resolve(w, fs, path)
  {
    if Removable(w, fs, path) {
      var h, i := Hollow(w, fs, path), Stat(w, fs, path).value;
      EmptiedPruned(w, fs, i);
      var cs := P.Components(path);
      WalkShrinks(fs, h, w.root, Start(w, path), cs[..|cs| - 1], MAX_LINKS);
    }
  }

  // ---------- Plain paths ----------

  /** Names of directories, one in the other, that lead from `at` to `i` without a link or a dot. */
  predicate Plain(fs: FileSystem, at: Ino, cs: seq<Name>, i: Ino)
    decreases |cs|
  {
    if cs == [] then at == i
    else
      && P.IsName(cs[0]) && cs[0] in Entries(fs, at) && !NodeAt(fs, Entries(fs, at)[cs[0]]).Link?
      && Plain(fs, Entries(fs, at)[cs[0]], cs[1..], i)
  }

  /** They go down the tree. */
  lemma {:induction false} PlainDescends(w: World, fs: FileSystem, at: Ino, cs: seq<Name>, i: Ino)
    requires Sane(w, fs) && Plain(fs, at, cs, i)
    ensures w.height(i) <= w.height(at)
    decreases |cs|
  {
    if cs != [] {
      assert DirectoryOk(w, fs, at);
      PlainDescends(w, fs, Entries(fs, at)[cs[0]], cs[1..], i);
    }
  }

  lemma {:induction false} SubBelow(w: World, fs: FileSystem, i: Ino, x: Ino)
    requires Sane(w, fs) && x in Sub(w, fs, i)
    ensures w.height(x) <= w.height(i)
    decreases w.height(i)
  {
    if x != i {
      assert DirectoryOk(w, fs, i);
      var name :| name in Entries(fs, i) && x in Sub(w, fs, Entries(fs, i)[name]);
      SubBelow(w, fs, Entries(fs, i)[name], x);
    }
  }

  /** They lead where they led once entries further down are gone. */
  lemma {:induction false} PlainStays(w: World, fs: FileSystem, at: Ino, cs: seq<Name>, i: Ino, dirs: set<Ino>, links: nat)
    requires Sane(w, fs) && Plain(fs, at, cs, i) && forall x :: x in dirs ==> w.height(x) < w.height(i)
    ensures Walk(Emptied(fs, dirs), w.root, at, cs, links) == Some(i)
    decreases |cs|
  {
    if cs != [] {
      assert DirectoryOk(w, fs, at);
      PlainDescends(w, fs, at, cs, i);
      PlainStays(w, fs, Entries(fs, at)[cs[0]], cs[1..], i, dirs, links);
    }
  }

  /** The path leads plainly to the directory `d`, and names the file or directory `i` there. */
  predicate Names(w: World, fs: FileSystem, path: Path, d: Ino, name: Name, i: Ino) {
    var cs := P.Components(path);
    && cs != [] && Plain(fs, Start(w, path), cs[..|cs| - 1], d) && name == cs[|cs| - 1] && P.IsName(name)
    && name in Entries(fs, d) && i == Entries(fs, d)[name] && !NodeAt(fs, i).Link? && (Slashed(path) ==> IsDir(fs, i))
  }

  /** What is named plainly is always removable. */
  lemma PlainIsRemovable(w: World, fs: FileSystem, path: Path, d: Ino, name: Name, i: Ino)
    requires Sane(w, fs) && Names(w, fs, path, d, name, i)
    ensures Stat(w, fs, path) == Some(i) && Removable(w, fs, path)
    ensures SpotOf(w, Hollow(w, fs, path), path) == Some(Spot(d, name))
  {
    PlainStat(w, fs, path, d, name, i);
    var dirs := Sub(w, fs, i);
    PlainAbove(w, fs, d, name, i);
    PlainSpot(w, fs, path, d, name, i, dirs);
  }

  lemma PlainAbove(w: World, fs: FileSystem, d: Ino, name: Name, i: Ino)
    requires Sane(w, fs) && name in Entries(fs, d) && i == Entries(fs, d)[name]
    ensures forall x :: x in Sub(w, fs, i) ==> w.height(x) < w.height(d)
  {
    assert DirectoryOk(w, fs, d);
    forall x | x in Sub(w, fs, i)
      ensures w.height(x) < w.height(d)
    {
      SubBelow(w, fs, i, x);
    }
  }

  lemma PlainSpot(w: World, fs: FileSystem, path: Path, d: Ino, name: Name, i: Ino, dirs: set<Ino>)
    requires Sane(w, fs) && Names(w, fs, path, d, name, i) && forall x :: x in dirs ==> w.height(x) < w.height(d)
    ensures SpotOf(w, Emptied(fs, dirs), path) == Some(Spot(d, name))
  {
    var cs := P.Components(path);
    PlainStays(w, fs, Start(w, path), cs[..|cs| - 1], d, dirs, MAX_LINKS);
    assert d !in dirs;
  }

  lemma PlainStat(w: World, fs: FileSystem, path: Path, d: Ino, name: Name, i: Ino)
    requires Sane(w, fs) && Names(w, fs, path, d, name, i)
    ensures Stat(w, fs, path) == Some(i)
  {
    assert Emptied(fs, {}) == fs;
    PlainSpot(w, fs, path, d, name, i, {});
    PlainResolves(w, fs, path, d, name, i);
  }

  lemma PlainResolves(w: World, fs: FileSystem, path: Path, d: Ino, name: Name, i: Ino)
    requires Sane(w, fs) && Names(w, fs, path, d, name, i)
    ensures Resolve(w, fs, path) == Some(i)
  {
    var cs := P.Components(path);
    var n := |cs| - 1;
    PlainSnoc(fs, Start(w, path), cs[..n], d, name);
    assert cs == cs[..n] + [name];
    PlainWalks(w, fs, Start(w, path), cs, i);
  }

  lemma PlainWalks(w: World, fs: FileSystem, at: Ino, cs: seq<Name>, i: Ino)
    requires Sane(w, fs) && Plain(fs, at, cs, i)
    ensures Walk(fs, w.root, at, cs, MAX_LINKS) == Some(i)
  {
    assert Emptied(fs, {}) == fs;
    PlainStays(w, fs, at, cs, i, {}, MAX_LINKS);
  }

  lemma {:induction false} PlainSnoc(fs: FileSystem, at: Ino, cs: seq<Name>, d: Ino, name: Name)
    requires Plain(fs, at, cs, d) && P.IsName(name) && name in Entries(fs, d) && !NodeAt(fs, Entries(fs, d)[name]).Link?
    ensures Plain(fs, at, cs + [name], Entries(fs, d)[name])
    decreases |cs|
  {
    if cs == [] {
      assert (cs + [name])[1..] == [];
    } else {
      assert (cs + [name])[1..] == cs[1..] + [name];
      PlainSnoc(fs, Entries(fs, at)[cs[0]], cs[1..], d, name);
    }
  }

  /** A link `l` beside the directory `t` it leads to, which holds a file. */
  const LINKED: FileSystem := map[
    0 := Directory(0, map["l" := 1, "t" := 2], ["l", "t"], {}),
    1 := Link(false, ["t"]),
    2 := Directory(0, map["f" := 3], ["f"], {}),
    3 := File]

  const AT_REST: World :=
    World(0, 0, k => false, i => if i == 0 then 2 else if i == 2 then 1 else 0, i => if i == 0 then 4 else if i == 2 then 2 else 0)

  lemma LinkedIsSane()
    ensures Sane(AT_REST, LINKED) && NoFail(AT_REST)
  {
    TopIsSane();
    TargetIsSane();
    assert forall d :: IsDir(LINKED, d) ==> d == 0 || d == 2;
  }

  lemma TopIsSane()
    ensures DirectoryOk(AT_REST, LINKED, 0)
  {
  }

  lemma TargetIsSane()
    ensures DirectoryOk(AT_REST, LINKED, 2)
  {
  }

  lemma LinkedSub()
    requires Sane(AT_REST, LINKED)
    ensures Sub(AT_REST, LINKED, 2) == {2}
  {
    assert Sub(AT_REST, LINKED, 3) == {};
  }

  lemma LinkedPath()
    ensures P.Components("l/") == ["l"] && P.Components("l") == ["l"]
    ensures !P.Rooted("l/") && Slashed("l/")
  {
    P.ComponentsOne("l");
    PathSlash("l");
    assert "l" + "/" == "l/";
  }

  /** Deleting `l/` there empties `t`, leaves the link, and reports failure. */
  lemma FollowedCase()
    ensures Sane(AT_REST, LINKED) && NoFail(AT_REST) && FitsBelow(AT_REST, LINKED, "l/") && |"l/"| < L.PATH_MAX
    ensures Stat(AT_REST, LINKED, "l/") == Some(2) && SpotOf(AT_REST, LINKED, "l/") == Some(Spot(0, "l"))
    ensures Persists(AT_REST, LINKED, "l/") && !Removable(AT_REST, LINKED, "l/")
    ensures Entries(LINKED, 2) != map[] && Entries(Hollow(AT_REST, LINKED, "l/"), 2) == map[]
  {
    LinkedIsSane();
    LinkedNames();
    LinkedPersists();
    LinkedStays();
    EmptiedAt(LINKED, {2}, 2);
    assert "f" in Entries(LINKED, 2);
  }

  lemma LinkedStays()
    requires Sane(AT_REST, LINKED)
    ensures !Removable(AT_REST, LINKED, "l/")
  {
    LinkedNames();
    TrailingSeparatorFollows(AT_REST, LINKED, "l/", Spot(0, "l"));
  }

  lemma EmptiedAt(fs: FileSystem, dirs: set<Ino>, d: Ino)
    requires d in dirs
    ensures Entries(Emptied(fs, dirs), d) == map[]
  {
  }

  lemma LinkedNames()
    ensures Stat(AT_REST, LINKED, "l/") == Some(2) && SpotOf(AT_REST, LINKED, "l/") == Some(Spot(0, "l"))
  {
    LinkedPath();
    LinkedResolves(LINKED);
    assert ["l"][..0] == [];
  }

  lemma LinkedPersists()
    requires Sane(AT_REST, LINKED)
    ensures Persists(AT_REST, LINKED, "l/") && Hollow(AT_REST, LINKED, "l/") == Emptied(LINKED, {2})
  {
    LinkedNames();
    LinkedSub();
    LinkedResolves(Emptied(LINKED, {2}));
  }

  lemma LinkedResolves(fs: FileSystem)
    requires fs in {LINKED, Emptied(LINKED, {2})}
    ensures Resolve(AT_REST, fs, "l/") == Some(2)
  {
    LinkedPath();
    assert 0 in fs && fs[0] == LINKED[0] && 1 in fs && fs[1] == Link(false, ["t"]) && 2 in fs && fs[2].Directory?;
    assert ["l"][1..] == [] && ["t"] + [] == ["t"] && ["t"][1..] == [];
    assert "l" != P.DOT && "l" != P.DOTDOT && "t" != P.DOT && "t" != P.DOTDOT;
    assert Walk(fs, 0, 2, [], 39) == Some(2);
    assert Walk(fs, 0, 0, ["t"], 39) == Some(2);
    assert Walk(fs, 0, 0, ["l"], 40) == Some(2);
  }

  /** An entry's subtree does not hold the directory the entry is in. */
  lemma ChildApart(w: World, fs: FileSystem, d: Ino, name: Name)
    requires Sane(w, fs) && name in Entries(fs, d)
    ensures d !in Sub(w, fs, Entries(fs, d)[name])
    ensures Entries(Emptied(fs, Sub(w, fs, Entries(fs, d)[name])), d) == Entries(fs, d)
  {
    var c := Entries(fs, d)[name];
    assert DirectoryOk(w, fs, d);
    if d in Sub(w, fs, c) {
      SubIsLower(w, fs, c, d);
    }
  }

  /** Deleting an entry of a directory keeps to the directory's subtree. */
  lemma AfterChild(w: World, fs: FileSystem, path: Path, name: Name, d: Ino)
    requires Sane(w, fs) && Slashed(path) && P.IsName(name) && Resolve(w, fs, path) in {None, Some(d)}
    requires Removable(w, fs, path + name)
    ensures Pruned(fs, After(w, fs, path + name), Sub(w, fs, d))
    ensures Entries(After(w, fs, path + name), d) == Entries(fs, d) - {name}
  {
    var h := Hollow(w, fs, path + name);
    ChildSpot(w, fs, path, name);
    ChildSpot(w, h, path, name);
    var c := Entries(fs, d)[name];
    ChildApart(w, fs, d, name);
    EmptiedPruned(w, fs, c);
    ResolveShrinks(w, fs, h, path);
    SubChild(w, fs, d, name);
    PrunedWiden(fs, h, Sub(w, fs, c), Sub(w, fs, d));
    assert Entries(h, c) == map[];
    RemovedPruned(h, Spot(d, name));
    PrunedWiden(h, After(w, fs, path + name), {d}, Sub(w, fs, d));
    PrunedTrans(fs, h, After(w, fs, path + name), Sub(w, fs, d));
  }

  // ---------- When nothing gets in the way ----------

  ghost predicate NoFail(w: World) {
    forall k: nat :: !w.fails(k)
  }

  /** Every path in a subtree stays below `PATH_MAX`. */
  predicate Fits(w: World, d: Ino, length: nat) {
    length + w.reach(d) < L.PATH_MAX
  }

  /** The path leads to the directory even when its subtree is empty. */
  ghost predicate Stable(w: World, fs: FileSystem, d: Ino, path: Path)
    requires Sane(w, fs)
  {
    Resolve(w, Emptied(fs, Sub(w, fs, d)), path) == Some(d)
  }

  /** Nothing gets in the way of emptying a directory. */
  ghost predicate Smooth(w: World, fs: FileSystem, d: Ino, b: L.Buffer)
    requires Sane(w, fs)
  {
    NoFail(w) && L.Tidy(b) && Slashed(b.text) && IsDir(fs, d) && Fits(w, d, b.length) && Stable(w, fs, d, b.text)
  }

  lemma SmoothShrinks(w: World, fs: FileSystem, fs': FileSystem, d: Ino, b: L.Buffer)
    requires Sane(w, fs) && Sane(w, fs') && Smooth(w, fs, d, b) && Pruned(fs, fs', Sub(w, fs, d))
    ensures Smooth(w, fs', d, b)
  {
    var e, e' := Emptied(fs, Sub(w, fs, d)), Emptied(fs', Sub(w, fs', d));
    LessEntries(fs, fs', d);
    SubShrinks(w, fs, fs', d);
    forall x | x in e'
      ensures Like(e'[x], e[x])
    {
      assert Like(fs[x], fs'[x]);
      assert x !in Sub(w, fs, d) ==> NodeAt(fs', x) == NodeAt(fs, x);
    }
    ResolveShrinks(w, e', e, b.text);
  }

  lemma StableResolves(w: World, fs: FileSystem, d: Ino, path: Path)
    requires Sane(w, fs) && Stable(w, fs, d, path)
    ensures Resolve(w, fs, path) == Some(d)
  {
    EmptiedPruned(w, fs, d);
    ResolveShrinks(w, fs, Emptied(fs, Sub(w, fs, d)), path);
  }

  lemma ChildStable(w: World, fs: FileSystem, d: Ino, path: Path, name: Name)
    requires Sane(w, fs) && Stable(w, fs, d, path) && name in Entries(fs, d)
    ensures Resolve(w, Emptied(fs, Sub(w, fs, Entries(fs, d)[name])), path) == Some(d) && P.IsName(name)
  {
    assert DirectoryOk(w, fs, d);
    var e, h := Emptied(fs, Sub(w, fs, d)), Emptied(fs, Sub(w, fs, Entries(fs, d)[name]));
    SubChild(w, fs, d, name);
    EmptiedLess(fs, Sub(w, fs, Entries(fs, d)[name]), Sub(w, fs, d));
    ResolveShrinks(w, h, e, path);
  }

  lemma EmptiedLess(fs: FileSystem, some: set<Ino>, more: set<Ino>)
    requires some <= more
    ensures Less(Emptied(fs, some), Emptied(fs, more))
  {
  }

  lemma ChildRemovable(w: World, fs: FileSystem, d: Ino, path: Path, name: Name)
    requires Sane(w, fs) && Slashed(path) && Stable(w, fs, d, path) && name in Entries(fs, d)
    ensures Removable(w, fs, path + name) && Stat(w, fs, path + name) == Some(Entries(fs, d)[name])
  {
    var h := Emptied(fs, Sub(w, fs, Entries(fs, d)[name]));
    StableResolves(w, fs, d, path);
    ChildStable(w, fs, d, path, name);
    ChildApart(w, fs, d, name);
    ChildSpot(w, fs, path, name);
    ChildSpot(w, h, path, name);
  }

  /** The dots of an open directory can be looked at. */
  lemma DotsSeen(w: World, fs: FileSystem, d: Ino, path: Path, name: Name)
    requires Sane(w, fs) && Slashed(path) && IsDir(fs, d) && Resolve(w, fs, path) == Some(d) && P.IsDots(name)
    ensures Stat(w, fs, path + name).Some? && IsDir(fs, Stat(w, fs, path + name).value)
  {
    ParentIsDir(w, fs, d);
    DotsResolve(w, fs, d, path, name);
    PathChild(path, name);
  }

  lemma ParentIsDir(w: World, fs: FileSystem, d: Ino)
    requires Sane(w, fs) && IsDir(fs, d)
    ensures IsDir(fs, fs[d].parent)
  {
    assert DirectoryOk(w, fs, d);
  }

  lemma DotsResolve(w: World, fs: FileSystem, d: Ino, path: Path, name: Name)
    requires Slashed(path) && IsDir(fs, d) && Resolve(w, fs, path) == Some(d) && P.IsDots(name)
    ensures Resolve(w, fs, path + name) == Some(if name == P.DOT then d else fs[d].parent)
  {
    PathChild(path, name);
    WalkSnoc(fs, w.root, Start(w, path), P.Components(path), MAX_LINKS, name, d);
  }

  // ---------- The path buffer ----------

  /** Either in order, or full with a name that lost its last character. */
  predicate BufferOk(b: L.Buffer) {
    L.Tidy(b) || (|b.text| == L.PATH_MAX - 1 && b.length == L.PATH_MAX)
  }

  function Added(b: L.Buffer, name: Name): L.Buffer {
    if L.Tidy(b) then L.Appended(b, name) else b
  }

  predicate Accepts(b: L.Buffer, name: Name) {
    if L.Tidy(b) then L.Accepted(b, name) else name == []
  }

  lemma AddedIs(b: L.Buffer, name: Name)
    requires BufferOk(b) && name != []
    ensures Grown(b, Added(b, name))
    ensures Accepts(b, name) ==> L.Tidy(b) && BufferOk(Added(b, name))
    ensures Accepts(b, name) && L.Tidy(Added(b, name)) ==> Added(b, name).text == b.text + name
    ensures Accepts(b, name) && !L.Tidy(Added(b, name)) ==> Added(b, name).text == b.text + name[..|name| - 1]
    ensures L.Tidy(b) && b.length + |name| < L.PATH_MAX ==> Accepts(b, name) && L.Tidy(Added(b, name))
  {
    if L.Tidy(b) {
      L.AppendsWholeIff(b, name);
    }
  }

  /** Only a proper name can denote something other than a directory. */
  lemma CutChild(w: World, fs: FileSystem, path: Path, cut: Name)
    requires Slashed(path) && P.NoSlash(cut)
    requires Stat(w, fs, path + cut).Some? && !IsDir(fs, Stat(w, fs, path + cut).value)
    ensures P.IsName(cut)
  {
    assert cut == [] ==> path + cut == path;
    if cut != [] {
      PathChild(path, cut);
    }
  }

  /** The directories a deletion may take entries from. */
  ghost function Scope(w: World, fs: FileSystem, b: L.Buffer): set<Ino>
    requires Sane(w, fs)
  {
    if L.Tidy(b) && Stat(w, fs, b.text).Some? then Sub(w, fs, Stat(w, fs, b.text).value) else {}
  }

  ghost predicate Room(w: World, fs: FileSystem, b: L.Buffer)
    requires Sane(w, fs)
  {
    L.Tidy(b) && (Stat(w, fs, b.text).Some? ==> Fits(w, Stat(w, fs, b.text).value, b.length + 1))
  }

  ghost function Depth(w: World, fs: FileSystem, b: L.Buffer): nat {
    if L.Tidy(b) && Stat(w, fs, b.text).Some? then w.height(Stat(w, fs, b.text).value) + 1 else 0
  }

  /** The path prefix is intact, and nothing was written past the end. */
  predicate Grown(b: L.Buffer, b': L.Buffer) {
    b.text <= b'.text && |b'.text| < L.PATH_MAX
  }

  /** What looking at an entry finds. */
  lemma Looks(w: World, fs: FileSystem, d: Ino, b: L.Buffer, name: Name)
    requires Sane(w, fs) && IsDir(fs, d) && BufferOk(b) && NameOk(w, d, name)
    ensures var b' := Added(b, name);
            var st := Stat(w, fs, b'.text);
            && (Accepts(b, name) && Slashed(b.text) && P.IsDots(name) && st.Some? ==> IsDir(fs, st.value))
            && (Smooth(w, fs, d, b) && P.IsDots(name) ==> Accepts(b, name) && st.Some?)
            && (Smooth(w, fs, d, b) && name in Entries(fs, d) ==>
                  Accepts(b, name) && st == Some(Entries(fs, d)[name]))
  {
    AddedIs(b, name);
    var b' := Added(b, name);
    var st := Stat(w, fs, b'.text);
    if Accepts(b, name) && Slashed(b.text) && P.IsDots(name) && st.Some? && !IsDir(fs, st.value) {
      CutChild(w, fs, b.text, if L.Tidy(b') then name else name[..|name| - 1]);
    }
    if Smooth(w, fs, d, b) && P.IsDots(name) {
      StableResolves(w, fs, d, b.text);
      DotsSeen(w, fs, d, b.text, name);
    }
    if Smooth(w, fs, d, b) && name in Entries(fs, d) {
      ChildSmooth(w, fs, b, name, d);
    }
  }

  /** A path with a separator after it, unless there was no room for one. */
  ghost predicate Entered(path: Path, b: L.Buffer) {
    BufferOk(b) && b.text in {path, path + "/"} && (L.Tidy(b) ==> Slashed(b.text))
  }

  lemma EnterOk(w: World, fs: FileSystem, b: L.Buffer, d: Ino)
    requires Sane(w, fs) && BufferOk(b) && Stat(w, fs, b.text) == Some(d) && IsDir(fs, d)
    ensures b.text != []
    ensures Accepts(b, "/") ==> L.Tidy(b) && Entered(b.text, Added(b, "/")) && Resolve(w, fs, Added(b, "/").text) == Some(d)
    ensures NoFail(w) && Room(w, fs, b) && Persists(w, fs, b.text) ==>
              Accepts(b, "/") && Smooth(w, fs, d, Added(b, "/"))
    ensures Removable(w, fs, b.text) ==> Persists(w, fs, b.text)
  {
    assert P.Components([]) == [];
    AddedIs(b, "/");
    StatResolves(w, fs, b.text);
    assert b.text + "/"[..0] == b.text;
    if Removable(w, fs, b.text) {
      RemovablePersists(w, fs, b.text, d);
    }
    StatResolves(w, Hollow(w, fs, b.text), b.text);
    PathSlash(b.text);
  }

  lemma RemovablePersists(w: World, fs: FileSystem, path: Path, d: Ino)
    requires Sane(w, fs) && Stat(w, fs, path) == Some(d) && IsDir(fs, d) && Removable(w, fs, path)
    ensures Persists(w, fs, path)
  {
    var h := Hollow(w, fs, path);
    EmptiedPruned(w, fs, d);
    LessEntries(fs, h, SpotOf(w, h, path).value.dir);
    LessEntries(fs, h, d);
    SpotResolves(w, h, path);
  }

  lemma UnlinkIsDeletion(w: World, fs: FileSystem, path: Path)
    requires Sane(w, fs) && Unlink(w, fs, path).Some?
    ensures Stat(w, fs, path).Some? && !IsDir(fs, Stat(w, fs, path).value)
    ensures Removable(w, fs, path) && Unlink(w, fs, path) == Some(After(w, fs, path))
  {
    FileRemoved(w, fs, path);
  }

  /** The path of an entry: its name whole, or cut when it names no directory. */
  ghost predicate Held(w: World, fs: FileSystem, b: L.Buffer, name: Name, d: Ino) {
    && L.Tidy(b) && Slashed(b.text) && P.IsName(name) && Resolve(w, fs, b.text) in {None, Some(d)}
    && Accepts(b, name)
  }

  /** A deletion below an open directory keeps to its subtree, also under a cut name. */
  lemma ChildDone(w: World, fs: FileSystem, b: L.Buffer, name: Name, d: Ino)
    requires Sane(w, fs) && Held(w, fs, b, name, d)
    ensures var b' := Added(b, name);
            Removable(w, fs, b'.text) && (L.Tidy(b') || !IsDir(fs, Stat(w, fs, b'.text).value)) ==>
              && Pruned(fs, After(w, fs, b'.text), Sub(w, fs, d))
              && (L.Tidy(b') ==> Entries(After(w, fs, b'.text), d) == Entries(fs, d) - {name})
  {
    var b' := Added(b, name);
    AddedIs(b, name);
    if Removable(w, fs, b'.text) {
      if L.Tidy(b') {
        AfterChild(w, fs, b.text, name, d);
      } else if !IsDir(fs, Stat(w, fs, b'.text).value) {
        CutChild(w, fs, b.text, name[..|name| - 1]);
        AfterChild(w, fs, b.text, name[..|name| - 1], d);
      }
    }
  }

  lemma ChildScope(w: World, fs: FileSystem, b: L.Buffer, name: Name, d: Ino)
    requires Sane(w, fs) && IsDir(fs, d) && Held(w, fs, b, name, d)
    ensures Scope(w, fs, Added(b, name)) <= Sub(w, fs, d)
    ensures Depth(w, fs, Added(b, name)) <= w.height(d)
  {
    AddedIs(b, name);
    ChildSpot(w, fs, b.text, name);
    assert DirectoryOk(w, fs, d);
    if name in Entries(fs, d) {
      SubChild(w, fs, d, name);
    }
  }

  lemma ChildSmooth(w: World, fs: FileSystem, b: L.Buffer, name: Name, d: Ino)
    requires Sane(w, fs) && Smooth(w, fs, d, b) && name in Entries(fs, d)
    ensures Held(w, fs, b, name, d) && L.Tidy(Added(b, name))
    ensures Removable(w, fs, Added(b, name).text) && Room(w, fs, Added(b, name))
    ensures Stat(w, fs, Added(b, name).text) == Some(Entries(fs, d)[name])
  {
    assert DirectoryOk(w, fs, d) && Below(w, d, name, Entries(fs, d)[name]);
    StableResolves(w, fs, d, b.text);
    AddedIs(b, name);
    ChildRemovable(w, fs, d, b.text, name);
  }

  /** The names a directory still has are those not read yet. */
  ghost predicate Left(was: map<Name, Ino>, now: map<Name, Ino>, read: seq<Name>) {
    forall name :: name in now <==> name in was && name !in read
  }

  lemma LeftStep(w: World, fs: FileSystem, fs': FileSystem, d: Ino, k: nat)
    requires Sane(w, fs) && IsDir(fs, d) && k < |fs[d].order| && Less(fs, fs')
    ensures var name, was, now := fs[d].order[k], fs[d].entries, Entries(fs', d);
            && NameOk(w, d, name) && (name in was ==> P.IsName(name))
            && (Left(was, now, fs[d].order[..k]) ==>
                  && (name in was ==> name in now && now[name] == was[name])
                  && Left(was, if name in was then now - {name} else now, fs[d].order[..k + 1]))
  {
    assert DirectoryOk(w, fs, d);
    LessEntries(fs, fs', d);
    var order := fs[d].order;
    assert order[..k + 1] == order[..k] + [order[k]];
    assert order[k] !in order[..k];
  }

  /** An entry is there and of the type it was read with. */
  ghost predicate Reads(fs: FileSystem, d: Ino, name: Name, isDir: bool) {
    name in Entries(fs, d) && isDir == IsDir(fs, Entries(fs, d)[name])
  }

  class Remover {
    const w: World
    var nodes: FileSystem
    var buffer: L.Buffer
    var clock: nat

    /** Whether the next system call fails. */
    method Fails() returns (failed: bool)
      modifies `clock
      ensures NoFail(w) ==> !failed
    {
      failed := w.fails(clock);
      clock := clock + 1;
    }

    /** `PathBuffer::Add`: the name whole, or cut by a character when it just does not fit, or refused. */
    method Add(name: Name) returns (ok: bool)
      requires BufferOk(buffer)
      modifies `buffer
      ensures buffer == Added(old(buffer), name) && ok == Accepts(old(buffer), name)
      ensures name != [] ==> Grown(old(buffer), buffer)
      ensures name != [] && ok ==>
                buffer.text == old(buffer.text) + if L.Tidy(buffer) then name else name[..|name| - 1]
    {
      if name != [] {
        AddedIs(buffer, name);
      }
      ok := Accepts(buffer, name);
      buffer := Added(buffer, name);
    }

    /** `PathBuffer::Reset` to where the buffer was. */
    method Reset(b: L.Buffer)
      requires BufferOk(b) && Grown(b, buffer)
      modifies `buffer
      ensures buffer == b
    {
      buffer := L.Buffer(buffer.text[..Min(b.length, |buffer.text|)], b.length);
    }

    method UnlinkHere() returns (ok: bool)
      modifies `nodes, `clock
      ensures ok ==> Unlink(w, old(nodes), buffer.text) == Some(nodes)
      ensures !ok ==> nodes == old(nodes)
      ensures NoFail(w) && Unlink(w, old(nodes), buffer.text).Some? ==> ok
    {
      var failed := Fails();
      var r := Unlink(w, nodes, buffer.text);
      if failed || r.None? {
        return false;
      }
      nodes := r.value;
      ok := true;
    }

    method DeleteRecursively() returns (ok: bool)
      requires Sane(w, nodes) && BufferOk(buffer)
      modifies `nodes, `buffer, `clock
      ensures Grown(old(buffer), buffer)
      ensures !ok ==> Pruned(old(nodes), nodes, Scope(w, old(nodes), old(buffer)))
      ensures ok ==> Removable(w, old(nodes), old(buffer.text)) && nodes == After(w, old(nodes), old(buffer.text))
      ensures ok && !L.Tidy(old(buffer)) ==> !IsDir(old(nodes), Stat(w, old(nodes), old(buffer.text)).value)
      ensures NoFail(w) && Room(w, old(nodes), old(buffer)) && Removable(w, old(nodes), old(buffer.text)) ==> ok
      ensures && NoFail(w) && Room(w, old(nodes), old(buffer)) && Persists(w, old(nodes), old(buffer.text))
              && !Removable(w, old(nodes), old(buffer.text))
              ==> nodes == Hollow(w, old(nodes), old(buffer.text))
      decreases Depth(w, nodes, buffer), 7
    {
      PrunedNothing(nodes, Scope(w, nodes, buffer));
      var failed := Fails();
      var st := Stat(w, nodes, buffer.text);
      if failed || st.None? {
        return false;
      }
      if !IsDir(nodes, st.value) {
        FileRemoved(w, nodes, buffer.text);
        ok := UnlinkHere();
        return;
      }
      ok := DeleteDirectory(st.value);
    }

    method DeleteDirectory(d: Ino) returns (ok: bool)
      requires Sane(w, nodes) && BufferOk(buffer) && Stat(w, nodes, buffer.text) == Some(d) && IsDir(nodes, d)
      modifies `nodes, `buffer, `clock
      ensures Grown(old(buffer), buffer)
      ensures !ok ==> Pruned(old(nodes), nodes, Scope(w, old(nodes), old(buffer)))
      ensures ok ==> Removable(w, old(nodes), old(buffer.text)) && nodes == After(w, old(nodes), old(buffer.text))
      ensures ok ==> L.Tidy(old(buffer))
      ensures NoFail(w) && Room(w, old(nodes), old(buffer)) && Removable(w, old(nodes), old(buffer.text)) ==> ok
      ensures && NoFail(w) && Room(w, old(nodes), old(buffer)) && Persists(w, old(nodes), old(buffer.text))
              && !Removable(w, old(nodes), old(buffer.text))
              ==> nodes == Hollow(w, old(nodes), old(buffer.text))
      decreases Depth(w, nodes, buffer), 6
    {
      ghost var b, fs := buffer, nodes;
      PrunedNothing(nodes, Scope(w, nodes, buffer));
      EnterOk(w, nodes, buffer, d);
      var added := Add("/");
      if !added {
        return false;
      }
      var unopened := Fails();
      var unlisted := Fails();
      if unopened || unlisted {
        return false;
      }
      var emptied := DeleteContents(d);
      if !emptied {
        return false;
      }
      ghost var left := nodes;
      ok := RemoveHere(fs, b.text, d);
      if Entries(left, d) == map[] {
        EmptiedIs(w, fs, left, d);
      }
    }

    /** `closedir`, then `unlinkat` with `AT_REMOVEDIR`. */
    method RemoveHere(ghost fs: FileSystem, ghost path: Path, ghost d: Ino) returns (ok: bool)
      requires Sane(w, fs) && path != [] && Stat(w, fs, path) == Some(d) && IsDir(fs, d)
      requires Pruned(fs, nodes, Sub(w, fs, d)) && buffer.text in {path, path + "/"}
      modifies `nodes, `clock
      ensures ok ==> Removable(w, fs, path) && nodes == After(w, fs, path)
      ensures !ok ==> nodes == old(nodes)
      ensures NoFail(w) && Removable(w, fs, path) && Entries(old(nodes), d) == map[] ==> ok
    {
      var unclosed := Fails();
      if unclosed {
        return false;
      }
      Removal(w, fs, nodes, path, buffer.text, d);
      var failed := Fails();
      var r := RemoveDir(w, nodes, buffer.text);
      if failed || r.None? {
        return false;
      }
      nodes := r.value;
      ok := true;
    }

    /** The loop over the entries of an open directory; whether its end was reached. */
    method DeleteContents(d: Ino) returns (ok: bool)
      requires Sane(w, nodes) && IsDir(nodes, d) && Resolve(w, nodes, buffer.text) == Some(d)
      requires BufferOk(buffer) && (L.Tidy(buffer) ==> Slashed(buffer.text))
      modifies `nodes, `buffer, `clock
      ensures Pruned(old(nodes), nodes, Sub(w, old(nodes), d))
      ensures Grown(old(buffer), buffer) && (ok ==> buffer == old(buffer))
      ensures Smooth(w, old(nodes), d, old(buffer)) ==> ok && Entries(nodes, d) == map[]
      decreases w.height(d) + 1, 5
    {
      ghost var fs, smooth := nodes, Smooth(w, nodes, d, buffer);
      var b, entries, order, typed := buffer, nodes[d].entries, nodes[d].order, nodes[d].typed;
      assert DirectoryOk(w, fs, d);
      PrunedNothing(fs, Sub(w, fs, d));
      var k := 0;
      while k < |order|
        invariant k <= |order| && buffer == b && Pruned(fs, nodes, Sub(w, fs, d))
        invariant smooth ==> Left(entries, Entries(nodes, d), order[..k])
      {
        var failed := Fails();
        if failed {
          return false;
        }
        ok := ReadNext(d, order[k], entries, order[k] in typed, fs, k);
        if !ok {
          return false;
        }
        Reset(b);
        k := k + 1;
      }
      var failed := Fails();
      ok := !failed;
    }

    /** The `k`th name of the directory as it was opened. */
    method ReadNext(d: Ino, name: Name, entries: map<Name, Ino>, typed: bool, ghost fs: FileSystem, ghost k: nat)
      returns (ok: bool)
      requires Sane(w, fs) && IsDir(fs, d) && Resolve(w, fs, buffer.text) == Some(d)
      requires BufferOk(buffer) && (L.Tidy(buffer) ==> Slashed(buffer.text))
      requires Pruned(fs, nodes, Sub(w, fs, d)) && entries == fs[d].entries && k < |fs[d].order| && name == fs[d].order[k]
      modifies `nodes, `buffer, `clock
      ensures Pruned(fs, nodes, Sub(w, fs, d)) && Grown(old(buffer), buffer)
      ensures Smooth(w, fs, d, old(buffer)) && Left(entries, Entries(old(nodes), d), fs[d].order[..k]) ==>
                ok && Left(entries, Entries(nodes, d), fs[d].order[..k + 1])
      decreases w.height(d) + 1, 4
    {
      LeftStep(w, fs, nodes, d, k);
      ok := ReadOne(d, name, name in entries, name in entries && IsDir(nodes, entries[name]), typed, fs);
    }

    /** One entry as it was read; an entry that had gone before is not read. */
    method ReadOne(d: Ino, name: Name, present: bool, isDir: bool, typed: bool, ghost fs: FileSystem) returns (ok: bool)
      requires Sane(w, fs) && IsDir(fs, d) && Resolve(w, fs, buffer.text) == Some(d)
      requires BufferOk(buffer) && (L.Tidy(buffer) ==> Slashed(buffer.text))
      requires Pruned(fs, nodes, Sub(w, fs, d)) && NameOk(w, d, name) && (present ==> P.IsName(name))
      modifies `nodes, `buffer, `clock
      ensures Pruned(fs, nodes, Sub(w, fs, d)) && Grown(old(buffer), buffer)
      ensures Smooth(w, fs, d, old(buffer)) && (present ==> Reads(old(nodes), d, name, isDir)) ==>
                ok && Entries(nodes, d) == if present then Entries(old(nodes), d) - {name} else Entries(old(nodes), d)
      decreases w.height(d) + 1, 3
    {
      if !present && !P.IsDots(name) {
        return true;
      }
      ghost var was := nodes;
      SaneShrinks(w, fs, nodes);
      LessEntries(fs, nodes, d);
      SubShrinks(w, fs, nodes, d);
      ResolveShrinks(w, fs, nodes, buffer.text);
      if Smooth(w, fs, d, buffer) {
        SmoothShrinks(w, fs, nodes, d, buffer);
      }
      ok := DeleteEntry(d, name, !present || isDir, typed);
      PrunedWiden(was, nodes, Sub(w, was, d), Sub(w, fs, d));
      PrunedTrans(fs, was, nodes, Sub(w, fs, d));
    }

    method DeleteEntry(d: Ino, name: Name, isDir: bool, typed: bool) returns (ok: bool)
      requires Sane(w, nodes) && IsDir(nodes, d) && Resolve(w, nodes, buffer.text) in {None, Some(d)}
      requires BufferOk(buffer) && (L.Tidy(buffer) ==> Slashed(buffer.text))
      requires NameOk(w, d, name) && (P.IsDots(name) ==> isDir)
      modifies `nodes, `buffer, `clock
      ensures Pruned(old(nodes), nodes, Sub(w, old(nodes), d)) && Grown(old(buffer), buffer)
      ensures Smooth(w, old(nodes), d, old(buffer)) && P.IsDots(name) ==> ok && nodes == old(nodes)
      ensures Smooth(w, old(nodes), d, old(buffer)) && Reads(old(nodes), d, name, isDir) ==>
                ok && Entries(nodes, d) == Entries(old(nodes), d) - {name}
      decreases w.height(d) + 1, 2
    {
      PrunedNothing(nodes, Sub(w, nodes, d));
      var directory := isDir;
      if !typed {
        ok, directory := LookAt(d, name);
        if !ok {
          return;
        }
      }
      if directory && P.IsDots(name) {
        return true;
      }
      ok := DeleteNamed(d, name, directory);
    }

    /** The type of an entry whose type was not reported; the buffer is reset afterwards. */
    method LookAt(d: Ino, name: Name) returns (ok: bool, directory: bool)
      requires Sane(w, nodes) && IsDir(nodes, d) && BufferOk(buffer) && NameOk(w, d, name)
      modifies `buffer, `clock
      ensures Grown(old(buffer), buffer) && (ok ==> buffer == old(buffer) && L.Tidy(buffer))
      ensures ok && P.IsDots(name) && Slashed(buffer.text) ==> directory
      ensures Smooth(w, nodes, d, old(buffer)) && P.IsDots(name) ==> ok && directory
      ensures Smooth(w, nodes, d, old(buffer)) && name in Entries(nodes, d) ==>
                ok && directory == IsDir(nodes, Entries(nodes, d)[name])
    {
      var b := buffer;
      AddedIs(buffer, name);
      Looks(w, nodes, d, buffer, name);
      ok := Add(name);
      directory := false;
      if !ok {
        return;
      }
      var failed := Fails();
      var st := Stat(w, nodes, buffer.text);
      if failed || st.None? {
        return false, false;
      }
      Reset(b);
      directory := IsDir(nodes, st.value);
    }

    method DeleteNamed(d: Ino, name: Name, directory: bool) returns (ok: bool)
      requires Sane(w, nodes) && IsDir(nodes, d) && Resolve(w, nodes, buffer.text) in {None, Some(d)}
      requires BufferOk(buffer) && (L.Tidy(buffer) ==> Slashed(buffer.text)) && P.IsName(name)
      modifies `nodes, `buffer, `clock
      ensures Pruned(old(nodes), nodes, Sub(w, old(nodes), d)) && Grown(old(buffer), buffer)
      ensures Smooth(w, old(nodes), d, old(buffer)) && Reads(old(nodes), d, name, directory) ==>
                ok && Entries(nodes, d) == Entries(old(nodes), d) - {name}
      decreases w.height(d) + 1, 1
    {
      ghost var b := buffer;
      PrunedNothing(nodes, Sub(w, nodes, d));
      AddedIs(buffer, name);
      if Smooth(w, nodes, d, b) && name in Entries(nodes, d) {
        ChildSmooth(w, nodes, b, name, d);
      }
      ok := Add(name);
      if ok {
        ok := DeleteAdded(d, name, directory, b);
      }
    }

    /** `DeleteRecursively` or `unlinkat` on the path with the name added. */
    method DeleteAdded(d: Ino, name: Name, directory: bool, ghost b: L.Buffer) returns (ok: bool)
      requires Sane(w, nodes) && IsDir(nodes, d) && Held(w, nodes, b, name, d)
      requires buffer == Added(b, name) && BufferOk(buffer)
      modifies `nodes, `buffer, `clock
      ensures Pruned(old(nodes), nodes, Sub(w, old(nodes), d)) && Grown(old(buffer), buffer)
      ensures && NoFail(w) && Room(w, old(nodes), old(buffer)) && Removable(w, old(nodes), old(buffer.text))
              && directory == IsDir(old(nodes), Stat(w, old(nodes), old(buffer.text)).value)
              ==> ok && Entries(nodes, d) == Entries(old(nodes), d) - {name}
      decreases w.height(d) + 1, 0
    {
      ghost var fs := nodes;
      PrunedNothing(nodes, Sub(w, nodes, d));
      ChildDone(w, fs, b, name, d);
      ChildScope(w, fs, b, name, d);
      if directory {
        ok := DeleteRecursively();
        if !ok {
          PrunedWiden(fs, nodes, Scope(w, fs, Added(b, name)), Sub(w, fs, d));
        }
      } else {
        if Stat(w, fs, buffer.text).Some? && !IsDir(fs, Stat(w, fs, buffer.text).value) {
          FileRemoved(w, fs, buffer.text);
        }
        if Unlink(w, fs, buffer.text).Some? {
          UnlinkIsDeletion(w, fs, buffer.text);
        }
        ok := UnlinkHere();
      }
    }

    /** `Directory::Delete` with `recursive` set. */
    method Delete(path: Path) returns (ok: bool)
      requires Sane(w, nodes)
      modifies `nodes, `buffer, `clock
      ensures !ok ==> Pruned(old(nodes), nodes, SubtreeAt(w, old(nodes), path))
      ensures ok ==> nodes == After(w, old(nodes), Kept(path)) && Removable(w, old(nodes), Kept(path))
      ensures ok && |path| == L.PATH_MAX ==> !IsDir(old(nodes), Stat(w, old(nodes), Kept(path)).value)
      ensures NoFail(w) && |path| < L.PATH_MAX && FitsBelow(w, old(nodes), path) ==>
                (ok <==> Removable(w, old(nodes), path))
      ensures NoFail(w) && |path| < L.PATH_MAX && FitsBelow(w, old(nodes), path) && Persists(w, old(nodes), path) ==>
                nodes == if ok then After(w, old(nodes), path) else Hollow(w, old(nodes), path)
      ensures |path| > L.PATH_MAX ==> !ok
    {
      PrunedNothing(nodes, SubtreeAt(w, nodes, path));
      buffer := L.Buffer([], 0);
      StartBuffer(path);
      var added := Add(path);
      if !added {
        return false;
      }
      ok := DeleteRecursively();
    }
  }

  /** What the buffer holds of a path: all of it, or all but the last character of one that just does not fit. */
  function Kept(path: Path): Path {
    if |path| == L.PATH_MAX then path[..|path| - 1] else path
  }

  lemma StartBuffer(path: Path)
    ensures var b := Added(L.Buffer([], 0), path);
            && (Accepts(L.Buffer([], 0), path) <==> |path| <= L.PATH_MAX)
            && (|path| <= L.PATH_MAX ==> b.text == Kept(path) && BufferOk(b))
            && (|path| < L.PATH_MAX ==> b == L.Buffer(path, |path|) && L.Tidy(b))
            && (|path| == L.PATH_MAX ==> !L.Tidy(b))
  {
    L.AppendsWholeIff(L.Buffer([], 0), path);
    assert [] + path == path;
    if |path| == L.PATH_MAX {
      L.AcceptsCutName(L.Buffer([], 0), path);
      assert [] + path[..|path| - 1] == path[..|path| - 1];
    }
  }

  ghost function SubtreeAt(w: World, fs: FileSystem, path: Path): set<Ino>
    requires Sane(w, fs)
  {
    if |path| < L.PATH_MAX && Stat(w, fs, path).Some? then Sub(w, fs, Stat(w, fs, path).value) else {}
  }

  ghost predicate FitsBelow(w: World, fs: FileSystem, path: Path) {
    Stat(w, fs, path).Some? ==> Fits(w, Stat(w, fs, path).value, |path| + 1)
  }
}
