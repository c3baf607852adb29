/**
 * Pausable recursive directory listing.
 *
 * A listing is a stack of directory entries that share one path buffer and one
 * chain of followed links; it stops whenever the response array is full and is
 * taken up again by the next request.  The reference is the recursive preorder
 * walk below, which terminates although links may form cycles: following a link
 * uses up one that is not in the chain yet, and everything else goes down the
 * physical tree.  The batches of a listing, put together, are that walk and one
 * final marker, and every link node allocated on the way is freed exactly once.
 */
module DirListing {
  import opened Basics
  import P = UnixPath

  type Ino = nat
  type LinkId = nat
  type Path = seq<char>

  // ---------- The file system ----------

  datatype Target = ToDirectory(ino: Ino) | ToOther | Broken

  /** What a directory entry is; `Unstatable` is one whose type cannot be found out. */
  datatype Node = File | SubDirectory(ino: Ino) | Link(id: LinkId, target: Target) | Unstatable

  datatype Entry = Entry(name: Path, node: Node)

  /** Opening may fail, and reading may end in an error instead of the end of the directory. */
  datatype Directory = Directory(entries: seq<Entry>, opens: bool, readsToEnd: bool)

  /** Directories by number, every link there is, and heights in the physical tree. */
  datatype Volume = Volume(dirs: map<Ino, Directory>, links: set<LinkId>, height: map<Ino, nat>)

  ghost predicate EntryOk(fs: Volume, ino: Ino, e: Entry)
    requires ino in fs.height
  {
    match e.node
    case SubDirectory(d) => P.IsDots(e.name) || (d in fs.dirs && d in fs.height && fs.height[d] < fs.height[ino])
    case Link(id, ToDirectory(d)) => id in fs.links && d in fs.dirs && d in fs.height
    case _ => true
  }

  /** The physical directories form a tree; links lead anywhere. */
  ghost predicate WellFormed(fs: Volume) {
    && fs.dirs.Keys <= fs.height.Keys
    && forall ino, i :: ino in fs.dirs && 0 <= i < |fs.dirs[ino].entries| ==> EntryOk(fs, ino, fs.dirs[ino].entries[i])
  }

  type FileSystem = fs: Volume | WellFormed(fs) witness Volume(map[], {}, map[])

  ghost function Height(fs: FileSystem, ino: Ino): nat {
    if ino in fs.height then fs.height[ino] else 0
  }

  /** The entries of a directory. */
  function EntriesOf(fs: FileSystem, ino: Ino): seq<Entry> {
    if ino in fs.dirs then fs.dirs[ino].entries else []
  }

  datatype Options = Options(recursive: bool, followLinks: bool)

  /** What a listing makes of an entry, given the links followed to get here. */
  datatype Seen = SeenFile | SeenLink | SeenError | SeenDirectory(ino: Ino, via: Option<LinkId>)

  function Look(opt: Options, node: Node, chain: seq<LinkId>): Seen {
    match node
    case File => SeenFile
    case SubDirectory(d) => SeenDirectory(d, None)
    case Unstatable => SeenError
    case Link(id, target) =>
      // A link already followed on this way, or a broken one, is reported as a link.
      if !opt.followLinks || id in chain || target.Broken? then SeenLink
      else if target.ToOther? then SeenFile
      else SeenDirectory(target.ino, Some(id))
  }

  function Follow(chain: seq<LinkId>, via: Option<LinkId>): seq<LinkId> {
    match via
    case None => chain
    case Some(id) => [id] + chain
  }

  // ---------- The walk ----------

  datatype Item = FileAt(path: Path) | DirectoryAt(path: Path) | LinkAt(path: Path) | ErrorAt(path: Path) | Done

  ghost function Unfollowed(fs: FileSystem, chain: seq<LinkId>): set<LinkId> {
    fs.links - set id | id in chain
  }

  lemma FollowUsesUp(fs: FileSystem, chain: seq<LinkId>, id: LinkId)
    requires id in fs.links && id !in chain
    ensures |Unfollowed(fs, [id] + chain)| < |Unfollowed(fs, chain)|
  {
    assert Unfollowed(fs, [id] + chain) == Unfollowed(fs, chain) - {id};
  }

  /** The directory an entry leads into is one of the file system, and closer to the end of the walk. */
  lemma Descends(fs: FileSystem, opt: Options, ino: Ino, i: nat, chain: seq<LinkId>)
    requires i < |EntriesOf(fs, ino)|
    ensures var e := EntriesOf(fs, ino)[i];
            var seen := Look(opt, e.node, chain);
            seen.SeenDirectory? && !P.IsDots(e.name) ==>
              && seen.ino in fs.dirs
              && (|| |Unfollowed(fs, Follow(chain, seen.via))| < |Unfollowed(fs, chain)|
                  || (Follow(chain, seen.via) == chain && Height(fs, seen.ino) < Height(fs, ino)))
  {
    var e := EntriesOf(fs, ino)[i];
    assert EntryOk(fs, ino, e);
    if e.node.Link? && Look(opt, e.node, chain).SeenDirectory? {
      FollowUsesUp(fs, chain, e.node.id);
    }
  }

  /** What is listed of the directory `ino` at `path`, which was reached by following `chain`. */
  ghost function Walk(fs: FileSystem, opt: Options, ino: Ino, path: Path, root: bool, chain: seq<LinkId>): seq<Item>
    decreases |Unfollowed(fs, chain)|, Height(fs, ino), 1, 0
  {
    if ino in fs.dirs && fs.dirs[ino].opens then WalkFrom(fs, opt, ino, 0, Prefix(path, root), chain)
    else [ErrorAt(path)]
  }

  /** The root's path comes with its separator. */
  function Prefix(path: Path, root: bool): Path {
    if root then path else path + "/"
  }

  /** What is listed from the entry at `pos` on. */
  ghost function WalkFrom(fs: FileSystem, opt: Options, ino: Ino, pos: nat, prefix: Path, chain: seq<LinkId>): seq<Item>
    decreases |Unfollowed(fs, chain)|, Height(fs, ino), 0, |EntriesOf(fs, ino)| - pos
  {
    if pos < |EntriesOf(fs, ino)| then
      WalkEntry(fs, opt, ino, pos, prefix, chain) + WalkFrom(fs, opt, ino, pos + 1, prefix, chain)
    else WalkEnd(fs, ino, prefix)
  }

  function WalkEnd(fs: FileSystem, ino: Ino, prefix: Path): seq<Item> {
    if ino in fs.dirs && fs.dirs[ino].readsToEnd then [] else [ErrorAt(prefix)]
  }

  /** What is listed for the entry at `pos`: itself, and then what is inside. */
  ghost function WalkEntry(fs: FileSystem, opt: Options, ino: Ino, pos: nat, prefix: Path, chain: seq<LinkId>): seq<Item>
    requires pos < |EntriesOf(fs, ino)|
    decreases |Unfollowed(fs, chain)|, Height(fs, ino), 0, |EntriesOf(fs, ino)| - pos, 0
  {
    var e := EntriesOf(fs, ino)[pos];
    var path := prefix + e.name;
    match Look(opt, e.node, chain)
    case SeenFile => [FileAt(path)]
    case SeenLink => [LinkAt(path)]
    case SeenError => [ErrorAt(path)]
    case SeenDirectory(d, via) =>
      if P.IsDots(e.name) then []
      else
        Descends(fs, opt, ino, pos, chain);
        [DirectoryAt(path)] +
        if opt.recursive then Walk(fs, opt, d, path, false, Follow(chain, via)) else []
  }

  // ---------- What a walk lists, by what there is ----------

  predicate Opens(fs: FileSystem, ino: Ino) {
    ino in fs.dirs && fs.dirs[ino].opens
  }

  /** A link that is followed: followed links are asked for, and this one was not followed on the way here. */
  predicate Follows(opt: Options, e: Entry, chain: seq<LinkId>) {
    e.node.Link? && opt.followLinks && e.node.id !in chain
  }

  /** What is reported for an entry. */
  predicate Reports(opt: Options, e: Entry, path: Path, chain: seq<LinkId>, x: Item) {
    match x
    case FileAt(q) => q == path && (e.node.File? || (Follows(opt, e, chain) && e.node.target.ToOther?))
    case LinkAt(q) => q == path && e.node.Link? && (!Follows(opt, e, chain) || e.node.target.Broken?)
    case DirectoryAt(q) =>
      && q == path && e.name != "." && e.name != ".."
      && (e.node.SubDirectory? || (Follows(opt, e, chain) && e.node.target.ToDirectory?))
    case ErrorAt(q) => q == path && e.node.Unstatable?
    case Done => false
  }

  /**
   * The item is found at the end of a trail: the entries' positions from the directory `ino` down, each a
   * directory or a followed link to one but the last; an error of a directory itself ends the trail there.
   */
  ghost predicate Shown(fs: FileSystem, opt: Options, ino: Ino, path: Path, root: bool, chain: seq<LinkId>,
                        trail: seq<nat>, x: Item)
    decreases |trail|, 0
  {
    var prefix := if root then path else path + "/";
    if trail == [] then
      x == ErrorAt(if Opens(fs, ino) then prefix else path) && (Opens(fs, ino) ==> !fs.dirs[ino].readsToEnd)
    else
      && Opens(fs, ino) && trail[0] < |fs.dirs[ino].entries|
      && var e := fs.dirs[ino].entries[trail[0]];
         || (|trail| == 1 && Reports(opt, e, prefix + e.name, chain, x))
         || (opt.recursive && e.name != "." && e.name != ".." && ShownInside(fs, opt, e, prefix + e.name, chain, trail[1..], x))
  }

  ghost predicate ShownInside(fs: FileSystem, opt: Options, e: Entry, path: Path, chain: seq<LinkId>, trail: seq<nat>, x: Item)
    decreases |trail|, 1
  {
    || (e.node.SubDirectory? && Shown(fs, opt, e.node.ino, path, false, chain, trail, x))
    || (Follows(opt, e, chain) && e.node.target.ToDirectory?
        && Shown(fs, opt, e.node.target.ino, path, false, [e.node.id] + chain, trail, x))
  }

  /** An entry is reported as what it is, and in a recursive listing followed by what is inside. */
  lemma WalkEntryIs(fs: FileSystem, opt: Options, ino: Ino, pos: nat, prefix: Path, chain: seq<LinkId>)
    requires pos < |EntriesOf(fs, ino)|
    ensures var e := EntriesOf(fs, ino)[pos];
            var node, path, w := e.node, prefix + e.name, WalkEntry(fs, opt, ino, pos, prefix, chain);
            && (node.File? ==> w == [FileAt(path)])
            && (node.Unstatable? ==> w == [ErrorAt(path)])
            && (node.SubDirectory? && (e.name == "." || e.name == "..") ==> w == [])
            && (node.SubDirectory? && e.name != "." && e.name != ".." ==>
                  w == [DirectoryAt(path)] + if opt.recursive then Walk(fs, opt, node.ino, path, false, chain) else [])
    ensures var e := EntriesOf(fs, ino)[pos];
            var node, path, w := e.node, prefix + e.name, WalkEntry(fs, opt, ino, pos, prefix, chain);
            && (node.Link? && (!opt.followLinks || node.id in chain || node.target.Broken?) ==> w == [LinkAt(path)])
            && (node.Link? && opt.followLinks && node.id !in chain && node.target.ToOther? ==> w == [FileAt(path)])
            && (node.Link? && opt.followLinks && node.id !in chain && node.target.ToDirectory? ==>
                  w == if e.name == "." || e.name == ".." then []
                       else [DirectoryAt(path)] +
                            if opt.recursive then Walk(fs, opt, node.target.ino, path, false, [node.id] + chain) else [])
  {
  }

  ghost predicate OnATrail(fs: FileSystem, opt: Options, ino: Ino, path: Path, root: bool, chain: seq<LinkId>, x: Item) {
    exists trail: seq<nat> :: Shown(fs, opt, ino, path, root, chain, trail, x)
  }

  /** Exactly the items found at the end of a trail are listed. */
  lemma ListedIff(fs: FileSystem, opt: Options, ino: Ino, path: Path, root: bool, chain: seq<LinkId>, x: Item)
    ensures x in Walk(fs, opt, ino, path, root, chain) <==> OnATrail(fs, opt, ino, path, root, chain, x)
  {
    if x in Walk(fs, opt, ino, path, root, chain) {
      var trail := TrailOf(fs, opt, ino, path, root, chain, x);
      assert OnATrail(fs, opt, ino, path, root, chain, x);
    }
    if OnATrail(fs, opt, ino, path, root, chain, x) {
      var trail: seq<nat> :| Shown(fs, opt, ino, path, root, chain, trail, x);
      ShownIsListed(fs, opt, ino, path, root, chain, trail, x);
    }
  }

  lemma {:induction false} TrailOf(fs: FileSystem, opt: Options, ino: Ino, path: Path, root: bool, chain: seq<LinkId>, x: Item)
    returns (trail: seq<nat>)
    requires x in Walk(fs, opt, ino, path, root, chain)
    ensures Shown(fs, opt, ino, path, root, chain, trail, x)
    decreases |Unfollowed(fs, chain)|, Height(fs, ino), 1
  {
    if !Opens(fs, ino) {
      trail := [];
    } else {
      var prefix := Prefix(path, root);
      var pos := EntryOf(fs, opt, ino, 0, prefix, chain, x);
      if pos == |EntriesOf(fs, ino)| {
        trail := [];
      } else {
        var e := EntriesOf(fs, ino)[pos];
        var rest, inside := TrailInside(fs, opt, ino, pos, prefix, chain, x);
        trail := if inside then [pos] + rest else [pos];
        assert inside ==> trail[1..] == rest;
      }
    }
  }

  lemma {:induction false} TrailInside(fs: FileSystem, opt: Options, ino: Ino, pos: nat, prefix: Path, chain: seq<LinkId>, x: Item)
    returns (trail: seq<nat>, inside: bool)
    requires pos < |EntriesOf(fs, ino)| && x in WalkEntry(fs, opt, ino, pos, prefix, chain)
    ensures var e := EntriesOf(fs, ino)[pos];
            if inside then
              opt.recursive && e.name != "." && e.name != ".." && ShownInside(fs, opt, e, prefix + e.name, chain, trail, x)
            else Reports(opt, e, prefix + e.name, chain, x)
    decreases |Unfollowed(fs, chain)|, Height(fs, ino), 0
  {
    var e := EntriesOf(fs, ino)[pos];
    WalkEntryIs(fs, opt, ino, pos, prefix, chain);
    Descends(fs, opt, ino, pos, chain);
    trail, inside := [], !Reports(opt, e, prefix + e.name, chain, x);
    if inside {
      if e.node.SubDirectory? {
        trail := TrailOf(fs, opt, e.node.ino, prefix + e.name, false, chain, x);
      } else {
        trail := TrailOf(fs, opt, e.node.target.ino, prefix + e.name, false, [e.node.id] + chain, x);
      }
    }
  }

  /** The entry an item of a directory is listed for, or the end of the directory. */
  lemma {:induction false} EntryOf(fs: FileSystem, opt: Options, ino: Ino, pos: nat, prefix: Path, chain: seq<LinkId>, x: Item)
    returns (at: nat)
    requires pos <= |EntriesOf(fs, ino)| && x in WalkFrom(fs, opt, ino, pos, prefix, chain)
    ensures pos <= at <= |EntriesOf(fs, ino)|
    ensures x in if at < |EntriesOf(fs, ino)| then WalkEntry(fs, opt, ino, at, prefix, chain) else WalkEnd(fs, ino, prefix)
    decreases |EntriesOf(fs, ino)| - pos
  {
    at := pos;
    if pos < |EntriesOf(fs, ino)| && x !in WalkEntry(fs, opt, ino, pos, prefix, chain) {
      at := EntryOf(fs, opt, ino, pos + 1, prefix, chain, x);
    }
  }

  lemma {:induction false} EntryListed(fs: FileSystem, opt: Options, ino: Ino, pos: nat, prefix: Path, chain: seq<LinkId>, at: nat, x: Item)
    requires pos <= at <= |EntriesOf(fs, ino)|
    requires x in if at < |EntriesOf(fs, ino)| then WalkEntry(fs, opt, ino, at, prefix, chain) else WalkEnd(fs, ino, prefix)
    ensures x in WalkFrom(fs, opt, ino, pos, prefix, chain)
    decreases at - pos
  {
    if pos < at {
      EntryListed(fs, opt, ino, pos + 1, prefix, chain, at, x);
    }
  }

  lemma {:induction false} ShownIsListed(fs: FileSystem, opt: Options, ino: Ino, path: Path, root: bool, chain: seq<LinkId>,
                                         trail: seq<nat>, x: Item)
    requires Shown(fs, opt, ino, path, root, chain, trail, x)
    ensures x in Walk(fs, opt, ino, path, root, chain)
    decreases |trail|
  {
    if Opens(fs, ino) {
      var prefix := Prefix(path, root);
      if trail == [] {
        EntryListed(fs, opt, ino, 0, prefix, chain, |EntriesOf(fs, ino)|, x);
      } else {
        var e := EntriesOf(fs, ino)[trail[0]];
        WalkEntryIs(fs, opt, ino, trail[0], prefix, chain);
        if |trail| > 1 || !Reports(opt, e, prefix + e.name, chain, x) {
          if e.node.SubDirectory? {
            ShownIsListed(fs, opt, e.node.ino, prefix + e.name, false, chain, trail[1..], x);
          } else {
            ShownIsListed(fs, opt, e.node.target.ino, prefix + e.name, false, [e.node.id] + chain, trail[1..], x);
          }
        }
        EntryListed(fs, opt, ino, 0, prefix, chain, trail[0], x);
      }
    }
  }

  // ---------- Links that are not followed ----------

  /** With each directory its subdirectories belong to the set; links may lead out of it. */
  ghost predicate Closed(fs: FileSystem, inside: set<Ino>) {
    forall ino, i :: ino in inside && 0 <= i < |EntriesOf(fs, ino)| ==> EntryInside(EntriesOf(fs, ino)[i], inside)
  }

  ghost predicate EntryInside(e: Entry, inside: set<Ino>) {
    e.node.SubDirectory? && e.name != "." && e.name != ".." ==> e.node.ino in inside
  }

  ghost predicate Alike(fs: FileSystem, fs': FileSystem, inside: set<Ino>) {
    forall ino :: ino in inside ==> ino in fs.dirs && ino in fs'.dirs && fs.dirs[ino] == fs'.dirs[ino]
  }

  /** Without following links nothing outside the physical subtree matters to a listing. */
  lemma {:induction false} LinksNotEntered(fs: FileSystem, fs': FileSystem, opt: Options, inside: set<Ino>,
                                           ino: Ino, path: Path, root: bool, chain: seq<LinkId>)
    requires !opt.followLinks && ino in inside && Closed(fs, inside) && Alike(fs, fs', inside)
    ensures Walk(fs, opt, ino, path, root, chain) == Walk(fs', opt, ino, path, root, chain)
    decreases Height(fs, ino), 2, 0
  {
    if Opens(fs, ino) {
      FromNotEntered(fs, fs', opt, inside, ino, 0, Prefix(path, root), chain);
    }
  }

  lemma {:induction false} FromNotEntered(fs: FileSystem, fs': FileSystem, opt: Options, inside: set<Ino>,
                                          ino: Ino, pos: nat, prefix: Path, chain: seq<LinkId>)
    requires !opt.followLinks && ino in inside && Closed(fs, inside) && Alike(fs, fs', inside)
    ensures WalkFrom(fs, opt, ino, pos, prefix, chain) == WalkFrom(fs', opt, ino, pos, prefix, chain)
    decreases Height(fs, ino), 1, |EntriesOf(fs, ino)| - pos
  {
    assert fs.dirs[ino] == fs'.dirs[ino];
    if pos < |EntriesOf(fs, ino)| {
      EntryNotEntered(fs, fs', opt, inside, ino, pos, prefix, chain);
      FromNotEntered(fs, fs', opt, inside, ino, pos + 1, prefix, chain);
    }
  }

  lemma {:induction false} EntryNotEntered(fs: FileSystem, fs': FileSystem, opt: Options, inside: set<Ino>,
                                           ino: Ino, pos: nat, prefix: Path, chain: seq<LinkId>)
    requires !opt.followLinks && ino in inside && Closed(fs, inside) && Alike(fs, fs', inside)
    requires pos < |EntriesOf(fs, ino)|
    ensures pos < |EntriesOf(fs', ino)|
    ensures WalkEntry(fs, opt, ino, pos, prefix, chain) == WalkEntry(fs', opt, ino, pos, prefix, chain)
    decreases Height(fs, ino), 0, 0
  {
    assert fs.dirs[ino] == fs'.dirs[ino];
    var e := EntriesOf(fs, ino)[pos];
    WalkEntryIs(fs, opt, ino, pos, prefix, chain);
    WalkEntryIs(fs', opt, ino, pos, prefix, chain);
    assert EntryInside(e, inside) && EntryOk(fs, ino, e);
    if e.node.SubDirectory? && e.name != "." && e.name != ".." && opt.recursive {
      LinksNotEntered(fs, fs', opt, inside, e.node.ino, prefix + e.name, false, chain);
    }
  }

  // ---------- The path buffer ----------

  const PATH_MAX: nat := 4096

  /** The string in the buffer and the length kept beside it. */
  datatype Buffer = Buffer(text: Path, length: nat)

  predicate Tidy(b: Buffer) {
    |b.text| == b.length < PATH_MAX
  }

  /** `snprintf` into the room left, with a terminator; accepted when the whole name would have fitted the room. */
  function Appended(b: Buffer, name: Path): Buffer
    requires Tidy(b)
  {
    var room := PATH_MAX - b.length;
    Buffer(b.text + name[..Min(|name|, room - 1)], if |name| <= room then b.length + |name| else b.length)
  }

  predicate Accepted(b: Buffer, name: Path)
    requires Tidy(b)
  {
    |name| <= PATH_MAX - b.length
  }

  /** A name is appended whole exactly when the result stays below `PATH_MAX`. */
  lemma AppendsWholeIff(b: Buffer, name: Path)
    requires Tidy(b)
    ensures Appended(b, name) == Buffer(b.text + name, b.length + |name|) <==> b.length + |name| < PATH_MAX
    ensures b.length + |name| < PATH_MAX ==> Accepted(b, name) && Tidy(Appended(b, name))
  {
    var room := PATH_MAX - b.length;
    assert |Appended(b, name).text| == b.length + Min(|name|, room - 1);
    if |name| < room {
      assert name[..|name|] == name;
    }
  }

  /** At `PATH_MAX` exactly, a name is accepted although its last character was cut. */
  lemma AcceptsCutName(b: Buffer, name: Path)
    requires Tidy(b) && b.length + |name| == PATH_MAX
    ensures Accepted(b, name) && Appended(b, name) == Buffer(b.text + name[..|name| - 1], PATH_MAX)
    ensures !Tidy(Appended(b, name))
  {
  }

  /** Every path of the walk stays below `PATH_MAX`, and a separator after it where one is needed. */
  ghost predicate Fits(fs: FileSystem, opt: Options, ino: Ino, path: Path, root: bool, chain: seq<LinkId>)
    decreases |Unfollowed(fs, chain)|, Height(fs, ino), 1, 0
  {
    |Prefix(path, root)| < PATH_MAX && FitsFrom(fs, opt, ino, 0, Prefix(path, root), chain)
  }

  ghost predicate FitsFrom(fs: FileSystem, opt: Options, ino: Ino, pos: nat, prefix: Path, chain: seq<LinkId>)
    decreases |Unfollowed(fs, chain)|, Height(fs, ino), 0, |EntriesOf(fs, ino)| - pos
  {
    pos < |EntriesOf(fs, ino)| ==>
      FitsEntry(fs, opt, ino, pos, prefix, chain) && FitsFrom(fs, opt, ino, pos + 1, prefix, chain)
  }

  ghost predicate FitsEntry(fs: FileSystem, opt: Options, ino: Ino, pos: nat, prefix: Path, chain: seq<LinkId>)
    requires pos < |EntriesOf(fs, ino)|
    decreases |Unfollowed(fs, chain)|, Height(fs, ino), 0, |EntriesOf(fs, ino)| - pos, 0
  {
    var e := EntriesOf(fs, ino)[pos];
    var seen := Look(opt, e.node, chain);
    && |prefix + e.name| < PATH_MAX
    && (seen.SeenDirectory? && !P.IsDots(e.name) && opt.recursive ==>
          (Descends(fs, opt, ino, pos, chain);
           Fits(fs, opt, seen.ino, prefix + e.name, false, Follow(chain, seen.via))))
  }

  // ---------- The stack of entries ----------

  type Addr = nat

  /** A `LinkList` node. */
  datatype LinkNode = LinkNode(id: LinkId, next: Option<Addr>)

  /** A `DirectoryListingEntry`; its parent is the one below it on the stack. */
  datatype Frame = Frame(ino: Ino, isOpen: bool, pos: nat, done: bool, pathLength: nat)

  /** Where a frame's directory is and the links followed to it. */
  datatype Place = Place(path: Path, chain: seq<LinkId>)

  /** What a frame has still to list. */
  ghost function Rest(fs: FileSystem, opt: Options, f: Frame, p: Place, root: bool): seq<Item> {
    if f.done then []
    else if !f.isOpen then Walk(fs, opt, f.ino, p.path, root, p.chain)
    else WalkFrom(fs, opt, f.ino, f.pos, Prefix(p.path, root), p.chain)
  }

  ghost predicate RestFits(fs: FileSystem, opt: Options, f: Frame, p: Place, root: bool) {
    f.ino in fs.dirs &&
    (f.done ||
     if !f.isOpen then Fits(fs, opt, f.ino, p.path, root, p.chain)
     else FitsFrom(fs, opt, f.ino, f.pos, Prefix(p.path, root), p.chain))
  }

  /** What a stack has still to list, the top first. */
  ghost function Pending(fs: FileSystem, opt: Options, stack: seq<Frame>, places: seq<Place>): seq<Item> {
    if stack == [] || places == [] then []
    else
      var n, m := |stack| - 1, |places| - 1;
      Rest(fs, opt, stack[n], places[m], n == 0) + Pending(fs, opt, stack[..n], places[..m])
  }

  // ---------- Link nodes ----------

  /** The identities met by following `next` from a link. */
  function ChainOf(nodes: map<Addr, LinkNode>, l: Option<Addr>): seq<LinkId>
    decreases if l.None? then 0 else l.value + 1
  {
    if l.None? || l.value !in nodes then []
    else
      var node := nodes[l.value];
      [node.id] + if node.next.Some? && node.next.value >= l.value then [] else ChainOf(nodes, node.next)
  }

  /** Nodes point to live older nodes. */
  ghost predicate NodesOk(nodes: map<Addr, LinkNode>, next: Addr) {
    forall a :: a in nodes ==> a < next && (nodes[a].next.Some? ==> nodes[a].next.value < a && nodes[a].next.value in nodes)
  }

  lemma {:induction false} ChainOfFrame(nodes: map<Addr, LinkNode>, nodes': map<Addr, LinkNode>, l: Option<Addr>, top: Addr)
    requires NodesOk(nodes, top)
    requires forall a :: a in nodes ==> a in nodes' && nodes'[a] == nodes[a]
    requires l.Some? ==> l.value in nodes
    ensures ChainOf(nodes', l) == ChainOf(nodes, l)
    decreases if l.None? then 0 else l.value + 1
  {
    if l.Some? {
      ChainOfFrame(nodes, nodes', nodes[l.value].next, top);
    }
  }

  /** The links the frames of a stack hold, bottom first. */
  type Links = seq<Option<Addr>>

  /** The link the topmost frame inherits: its parent's. */
  function Inherited(ls: Links): Option<Addr> {
    if |ls| <= 1 then None else ls[|ls| - 2]
  }

  function Top(ls: Links): Option<Addr> {
    if ls == [] then None else ls[|ls| - 1]
  }

  function WithTop(ls: Links, l: Option<Addr>): Links {
    if ls == [] then ls else ls[|ls| - 1 := l]
  }

  /** A frame owns its link unless it inherited it. */
  predicate Owns(ls: Links) {
    Top(ls).Some? && Top(ls) != Inherited(ls)
  }

  /**
   * The live nodes are the owned ones: each is on top of what its owner
   * inherited and newer than every node below.
   */
  ghost predicate LinksOk(ls: Links, nodes: map<Addr, LinkNode>, next: Addr)
    decreases |ls|
  {
    if ls == [] then nodes == map[]
    else
      var below := ls[..|ls| - 1];
      if Owns(ls) then
        var a := Top(ls).value;
        && a in nodes && a < next && nodes[a].next == Inherited(ls)
        && LinksOk(below, nodes - {a}, a)
      else
        (Top(ls).None? || Top(ls) == Inherited(ls)) && LinksOk(below, nodes, next)
  }

  lemma {:induction false} LinksBelow(ls: Links, nodes: map<Addr, LinkNode>, next: Addr)
    requires LinksOk(ls, nodes, next)
    ensures NodesOk(nodes, next)
    ensures forall i :: 0 <= i < |ls| && ls[i].Some? ==> ls[i].value in nodes
    decreases |ls|
  {
    if ls != [] {
      var n := |ls| - 1;
      assert n > 0 ==> ls[..n][n - 1] == Inherited(ls);
      if Owns(ls) {
        var a := Top(ls).value;
        LinksBelow(ls[..n], nodes - {a}, a);
        assert Inherited(ls).Some? ==> Inherited(ls).value in nodes - {a};
        forall b | b in nodes
          ensures b < next && (nodes[b].next.Some? ==> nodes[b].next.value < b && nodes[b].next.value in nodes)
        {
          if b != a {
            assert b in nodes - {a} && (nodes - {a})[b] == nodes[b];
          }
        }
      } else {
        LinksBelow(ls[..n], nodes, next);
      }
    }
  }

  lemma {:induction false} LinksMonotone(ls: Links, nodes: map<Addr, LinkNode>, next: Addr, next': Addr)
    requires LinksOk(ls, nodes, next) && next <= next'
    ensures LinksOk(ls, nodes, next')
    decreases |ls|
  {
    if ls != [] && !Owns(ls) {
      LinksMonotone(ls[..|ls| - 1], nodes, next, next');
    }
  }

  /** The nodes left when the top frame frees the one it owns. */
  function ResetNodes(ls: Links, nodes: map<Addr, LinkNode>): map<Addr, LinkNode> {
    if Owns(ls) then nodes - {Top(ls).value} else nodes
  }

  /** `ResetLink`: the node freed is live, and nobody else can reach it. */
  lemma ResetKeeps(ls: Links, nodes: map<Addr, LinkNode>, next: Addr)
    requires ls != [] && LinksOk(ls, nodes, next)
    ensures LinksOk(WithTop(ls, Inherited(ls)), ResetNodes(ls, nodes), next)
    ensures LinksOk(ls[..|ls| - 1], ResetNodes(ls, nodes), next)
    ensures Owns(ls) ==> Top(ls).value in nodes
  {
    var n := |ls| - 1;
    if Owns(ls) {
      LinksMonotone(ls[..n], nodes - {Top(ls).value}, Top(ls).value, next);
    }
    assert WithTop(ls, Inherited(ls))[..n] == ls[..n];
  }

  /** Resetting the top does not change what the frames below followed. */
  lemma ResetChains(ls: Links, nodes: map<Addr, LinkNode>, next: Addr, i: nat)
    requires LinksOk(ls, nodes, next) && i < |ls| - 1
    ensures ChainOf(ResetNodes(ls, nodes), ls[i]) == ChainOf(nodes, ls[i])
  {
    var n := |ls| - 1;
    if Owns(ls) {
      var a := Top(ls).value;
      LinksBelow(ls[..n], nodes - {a}, a);
      assert ls[..n][i] == ls[i];
      ChainOfFrame(nodes - {a}, nodes, ls[i], a);
    }
  }

  /** A new node for the top frame, which so far holds what it inherited. */
  lemma FollowKeeps(ls: Links, nodes: map<Addr, LinkNode>, next: Addr, id: LinkId)
    requires ls != [] && LinksOk(ls, nodes, next) && Top(ls) == Inherited(ls)
    ensures LinksOk(WithTop(ls, Some(next)), nodes[next := LinkNode(id, Inherited(ls))], next + 1)
  {
    var n := |ls| - 1;
    LinksBelow(ls, nodes, next);
    var ls', nodes' := WithTop(ls, Some(next)), nodes[next := LinkNode(id, Inherited(ls))];
    assert ls'[..n] == ls[..n];
    assert n > 0 ==> ls[n - 1] == Inherited(ls);
    assert nodes' - {next} == nodes;
  }

  lemma FollowChains(nodes: map<Addr, LinkNode>, next: Addr, id: LinkId, base: Option<Addr>, l: Option<Addr>)
    requires NodesOk(nodes, next) && (base.Some? ==> base.value in nodes) && (l.Some? ==> l.value in nodes)
    ensures var nodes' := nodes[next := LinkNode(id, base)];
            && ChainOf(nodes', l) == ChainOf(nodes, l)
            && ChainOf(nodes', Some(next)) == [id] + ChainOf(nodes, base)
  {
    var nodes' := nodes[next := LinkNode(id, base)];
    ChainOfFrame(nodes, nodes', l, next);
    ChainOfFrame(nodes, nodes', base, next);
  }

  // ---------- What a listing keeps ----------

  /** The buffer starts with an open frame's prefix, or is the path of a frame still to be opened. */
  ghost predicate At(text: Path, f: Frame, p: Place, root: bool) {
    if f.isOpen then Prefix(p.path, root) <= text else text == p.path
  }

  /** A place is below its parent's prefix. */
  ghost predicate Under(places: seq<Place>, i: nat)
    requires 0 < i < |places|
  {
    Prefix(places[i - 1].path, i == 1) <= places[i].path
  }

  ghost predicate FrameOk(fs: FileSystem, opt: Options, f: Frame, p: Place, root: bool) {
    && (f.isOpen ==> f.pathLength == |Prefix(p.path, root)|)
    && RestFits(fs, opt, f, p, root)
  }

  /** The frames below the top: open, and each place below the one before. */
  ghost predicate FramesOk(fs: FileSystem, opt: Options, frames: seq<Frame>, places: seq<Place>) {
    && |frames| == |places|
    && (forall i :: 0 <= i < |frames| ==> FrameOk(fs, opt, frames[i], places[i], i == 0))
    && (forall i :: 0 <= i < |frames| - 1 ==> frames[i].isOpen)
    && (forall i :: 0 < i < |places| ==> Under(places, i))
  }

  /** A place records the links its parent's chain holds. */
  ghost predicate Followed(held: Links, nodes: map<Addr, LinkNode>, places: seq<Place>, i: nat)
    requires 0 < i < |held| == |places|
  {
    places[i].chain == ChainOf(nodes, held[i - 1])
  }

  /** Every chain is recorded, and without repetition. */
  ghost predicate ChainsOk(held: Links, nodes: map<Addr, LinkNode>, places: seq<Place>) {
    && |held| == |places|
    && (forall i :: 0 <= i < |held| ==> Distinct(places[i].chain))
    && (|held| > 0 ==> places[0].chain == [])
    && (forall i :: 0 < i < |held| ==> Followed(held, nodes, places, i))
  }

  /** The listing's own state. */
  datatype Machine = Machine(buffer: Buffer, frames: seq<Frame>, held: Links, nodes: map<Addr, LinkNode>, next: Addr)

  ghost predicate BufferOk(buffer: Buffer, frames: seq<Frame>, places: seq<Place>) {
    && Tidy(buffer)
    && (frames != [] && places != [] ==>
          At(buffer.text, frames[|frames| - 1], places[|places| - 1], |frames| == 1))
  }

  ghost predicate Ok(fs: FileSystem, opt: Options, m: Machine, places: seq<Place>) {
    && BufferOk(m.buffer, m.frames, places)
    && FramesOk(fs, opt, m.frames, places)
    && ChainsOk(m.held, m.nodes, places)
    && LinksOk(m.held, m.nodes, m.next)
  }

  // ---------- The steps ----------

  /** What the next entry of the topmost directory came to. */
  datatype ListType = ListFile | ListDirectory(ino: Ino) | ListLink | ListError | ListDone

  function Listed(seen: Seen): ListType {
    match seen
    case SeenFile => ListFile
    case SeenLink => ListLink
    case SeenError => ListError
    case SeenDirectory(d, _) => ListDirectory(d)
  }

  function TopFrame(m: Machine): Frame {
    if m.frames == [] then Frame(0, false, 0, true, 0) else m.frames[|m.frames| - 1]
  }

  function WithFrame(m: Machine, f: Frame): Machine {
    if m.frames == [] then m else m.(frames := m.frames[|m.frames| - 1 := f])
  }

  predicate CanOpen(fs: FileSystem, m: Machine) {
    TopFrame(m).ino in fs.dirs && fs.dirs[TopFrame(m).ino].opens
  }

  /** Opening appends a separator below the root and notes how long the prefix is. */
  function OpenTop(m: Machine): Machine {
    var b := if |m.frames| > 1 && Tidy(m.buffer) then Appended(m.buffer, "/") else m.buffer;
    WithFrame(m, TopFrame(m).(isOpen := true, pos := 0, pathLength := b.length)).(buffer := b)
  }

  /** Back to the top frame's prefix, and a link it followed dropped. */
  function ResetTop(m: Machine): Machine {
    m.(buffer := Buffer(m.buffer.text[..Min(TopFrame(m).pathLength, |m.buffer.text|)], TopFrame(m).pathLength),
       held := WithTop(m.held, Inherited(m.held)),
       nodes := ResetNodes(m.held, m.nodes))
  }

  /** The next entry's name is appended. */
  function Take(m: Machine, name: Path): Machine {
    WithFrame(m, TopFrame(m).(pos := TopFrame(m).pos + 1))
    .(buffer := if Tidy(m.buffer) then Appended(m.buffer, name) else m.buffer)
  }

  /** A followed link is noted on the chain. */
  function Note(m: Machine, via: Option<LinkId>): Machine {
    match via
    case None => m
    case Some(id) =>
      m.(nodes := m.nodes[m.next := LinkNode(id, Top(m.held))],
         held := WithTop(m.held, Some(m.next)),
         next := m.next + 1)
  }

  function LookTop(opt: Options, m: Machine, node: Node): Seen {
    Look(opt, node, ChainOf(m.nodes, Top(m.held)))
  }

  /** The directory is opened if need be, and the buffer is back at its prefix. */
  function Prepare(m: Machine): Machine {
    ResetTop(if TopFrame(m).isOpen then m else OpenTop(m))
  }

  /** `DirectoryListingEntry::Next`. */
  function Next(fs: FileSystem, opt: Options, m: Machine): (ListType, Machine)
    decreases Unread(fs, m), 2
  {
    if TopFrame(m).done then (ListDone, m)
    else if !TopFrame(m).isOpen && !CanOpen(fs, m) then
      (ListError, WithFrame(m, TopFrame(m).(done := true)))
    else Resume(fs, opt, Prepare(m))
  }

  /** The next entry of an open directory, or its end. */
  function Resume(fs: FileSystem, opt: Options, m: Machine): (ListType, Machine)
    requires TopFrame(m).isOpen
    decreases Unread(fs, m), 1
  {
    if TopFrame(m).pos < |EntriesOf(fs, TopFrame(m).ino)| then ReadEntry(fs, opt, m)
    else
      (if TopFrame(m).ino in fs.dirs && fs.dirs[TopFrame(m).ino].readsToEnd then ListDone else ListError,
       WithFrame(m, TopFrame(m).(done := true)))
  }

  function ReadEntry(fs: FileSystem, opt: Options, m: Machine): (ListType, Machine)
    requires TopFrame(m).isOpen && TopFrame(m).pos < |EntriesOf(fs, TopFrame(m).ino)|
    decreases Unread(fs, m), 0
  {
    var e := EntriesOf(fs, TopFrame(m).ino)[TopFrame(m).pos];
    var m1 := Take(m, e.name);
    var seen := LookTop(opt, m1, e.node);
    var m2 := if seen.SeenDirectory? then Note(m1, seen.via) else m1;
    if seen.SeenDirectory? && P.IsDots(e.name) then Next(fs, opt, m2)
    else (Listed(seen), m2)
  }

  /** The entries the top frame has not read. */
  function Unread(fs: FileSystem, m: Machine): int {
    if TopFrame(m).isOpen then |EntriesOf(fs, TopFrame(m).ino)| - TopFrame(m).pos
    else |EntriesOf(fs, TopFrame(m).ino)|
  }

  // ---------- What the steps keep ----------

  /** What the top frame has still to list. */
  ghost function TopRest(fs: FileSystem, opt: Options, m: Machine, places: seq<Place>): seq<Item> {
    if m.frames == [] || places == [] then []
    else Rest(fs, opt, TopFrame(m), places[|places| - 1], |m.frames| == 1)
  }

  /** Only the top frame changes. */
  ghost predicate SameBelow(m: Machine, m': Machine) {
    && m.frames != [] && |m'.frames| == |m.frames|
    && m'.frames[..|m.frames| - 1] == m.frames[..|m.frames| - 1]
  }

  lemma FramesTop(fs: FileSystem, opt: Options, frames: seq<Frame>, places: seq<Place>, f: Frame)
    requires frames != [] && FramesOk(fs, opt, frames, places)
    requires FrameOk(fs, opt, f, places[|frames| - 1], |frames| == 1)
    ensures FramesOk(fs, opt, frames[|frames| - 1 := f], places)
  {
  }

  lemma RefusedOk(fs: FileSystem, opt: Options, m: Machine, places: seq<Place>)
    requires Ok(fs, opt, m, places) && m.frames != [] && !TopFrame(m).done && !TopFrame(m).isOpen && !CanOpen(fs, m)
    ensures var m' := WithFrame(m, TopFrame(m).(done := true));
            && Ok(fs, opt, m', places) && SameBelow(m, m')
            && TopRest(fs, opt, m, places) == [ErrorAt(m.buffer.text)] && TopRest(fs, opt, m', places) == []
  {
    FramesTop(fs, opt, m.frames, places, TopFrame(m).(done := true));
  }

  lemma OpenedRest(fs: FileSystem, opt: Options, f: Frame, p: Place, root: bool, length: nat)
    requires f.ino in fs.dirs && !f.isOpen && !f.done && fs.dirs[f.ino].opens
    requires RestFits(fs, opt, f, p, root)
    ensures var g := f.(isOpen := true, pos := 0, pathLength := length);
            Rest(fs, opt, g, p, root) == Rest(fs, opt, f, p, root) && RestFits(fs, opt, g, p, root)
    ensures |Prefix(p.path, root)| < PATH_MAX
  {
  }

  lemma OpenOk(fs: FileSystem, opt: Options, m: Machine, places: seq<Place>)
    requires Ok(fs, opt, m, places) && m.frames != [] && !TopFrame(m).done && !TopFrame(m).isOpen && CanOpen(fs, m)
    ensures var m' := OpenTop(m);
            && Ok(fs, opt, m', places) && SameBelow(m, m') && TopFrame(m').isOpen && !TopFrame(m').done
            && TopFrame(m').ino == TopFrame(m).ino
            && TopRest(fs, opt, m', places) == TopRest(fs, opt, m, places)
  {
    var n := |m.frames| - 1;
    var m' := OpenTop(m);
    OpenedRest(fs, opt, TopFrame(m), places[n], n == 0, m'.buffer.length);
    AppendsWholeIff(m.buffer, "/");
    assert m'.buffer.text == Prefix(places[n].path, n == 0);
    FramesTop(fs, opt, m.frames, places, TopFrame(m'));
  }

  lemma ResetOk(fs: FileSystem, opt: Options, m: Machine, places: seq<Place>)
    requires Ok(fs, opt, m, places) && m.frames != [] && TopFrame(m).isOpen
    ensures var m' := ResetTop(m);
            && Ok(fs, opt, m', places) && m'.frames == m.frames
            && m'.buffer.text == Prefix(places[|places| - 1].path, |m.frames| == 1)
            && Top(m'.held) == Inherited(m'.held)
  {
    var n := |m.frames| - 1;
    assert FrameOk(fs, opt, m.frames[n], places[n], n == 0);
    ResetKeeps(m.held, m.nodes, m.next);
    ResetChainsOk(m.held, m.nodes, m.next, places);
  }

  lemma ResetChainsOk(held: Links, nodes: map<Addr, LinkNode>, next: Addr, places: seq<Place>)
    requires held != [] && ChainsOk(held, nodes, places) && LinksOk(held, nodes, next)
    ensures ChainsOk(WithTop(held, Inherited(held)), ResetNodes(held, nodes), places)
    ensures ChainsOk(held[..|held| - 1], ResetNodes(held, nodes), places[..|held| - 1])
  {
    var held', nodes' := WithTop(held, Inherited(held)), ResetNodes(held, nodes);
    var below, placesBelow := held[..|held| - 1], places[..|held| - 1];
    forall i | 0 < i < |held|
      ensures Followed(held', nodes', places, i)
      ensures i < |held| - 1 ==> Followed(below, nodes', placesBelow, i)
    {
      assert held'[i - 1] == held[i - 1];
      assert i < |held| - 1 ==> below[i - 1] == held[i - 1];
      assert Followed(held, nodes, places, i);
      ResetChains(held, nodes, next, i - 1);
    }
    assert ChainsOk(below, nodes', placesBelow);
  }

  lemma TakenRest(fs: FileSystem, opt: Options, f: Frame, p: Place, root: bool)
    requires f.isOpen && !f.done && f.pos < |EntriesOf(fs, f.ino)| && FrameOk(fs, opt, f, p, root)
    ensures var g, prefix := f.(pos := f.pos + 1), Prefix(p.path, root);
            && FrameOk(fs, opt, g, p, root)
            && FitsEntry(fs, opt, f.ino, f.pos, prefix, p.chain)
            && |prefix + EntriesOf(fs, f.ino)[f.pos].name| < PATH_MAX
            && Rest(fs, opt, f, p, root) ==
               WalkEntry(fs, opt, f.ino, f.pos, prefix, p.chain) + Rest(fs, opt, g, p, root)
  {
  }

  lemma TakeOk(fs: FileSystem, opt: Options, m: Machine, places: seq<Place>)
    requires Ok(fs, opt, m, places) && m.frames != [] && TopFrame(m).isOpen && !TopFrame(m).done
    requires TopFrame(m).pos < |EntriesOf(fs, TopFrame(m).ino)|
    requires m.buffer.text == Prefix(places[|places| - 1].path, |m.frames| == 1)
    ensures var f, p := TopFrame(m), places[|places| - 1];
            var name := EntriesOf(fs, f.ino)[f.pos].name;
            var m' := Take(m, name);
            && Ok(fs, opt, m', places) && SameBelow(m, m') && m'.held == m.held && m'.nodes == m.nodes
            && m'.buffer.text == m.buffer.text + name
            && FitsEntry(fs, opt, f.ino, f.pos, m.buffer.text, p.chain)
            && TopRest(fs, opt, m, places) ==
               WalkEntry(fs, opt, f.ino, f.pos, m.buffer.text, p.chain) + TopRest(fs, opt, m', places)
  {
    var n := |m.frames| - 1;
    var f := TopFrame(m);
    var name := EntriesOf(fs, f.ino)[f.pos].name;
    TakenRest(fs, opt, f, places[n], n == 0);
    AppendsWholeIff(m.buffer, name);
    FramesTop(fs, opt, m.frames, places, f.(pos := f.pos + 1));
    ReplacedOk(fs, opt, m, Take(m, name), places);
  }

  /** Frames and buffer may be replaced by others in order. */
  lemma ReplacedOk(fs: FileSystem, opt: Options, m: Machine, m': Machine, places: seq<Place>)
    requires Ok(fs, opt, m, places) && m'.held == m.held && m'.nodes == m.nodes && m'.next == m.next
    requires FramesOk(fs, opt, m'.frames, places) && BufferOk(m'.buffer, m'.frames, places)
    ensures Ok(fs, opt, m', places)
  {
  }

  /** What the top frame inherits is what its place records. */
  lemma InheritsPlace(held: Links, nodes: map<Addr, LinkNode>, places: seq<Place>)
    requires held != [] && ChainsOk(held, nodes, places) && Top(held) == Inherited(held)
    ensures ChainOf(nodes, Top(held)) == places[|places| - 1].chain
    ensures Distinct(places[|places| - 1].chain)
  {
    var n := |held| - 1;
    if n > 0 {
      assert Followed(held, nodes, places, n);
    }
  }

  lemma NoteOk(fs: FileSystem, opt: Options, m: Machine, places: seq<Place>, id: LinkId)
    requires Ok(fs, opt, m, places) && m.held != [] && Top(m.held) == Inherited(m.held)
    requires id !in ChainOf(m.nodes, Top(m.held))
    ensures var m' := Note(m, Some(id));
            && Ok(fs, opt, m', places)
            && ChainOf(m'.nodes, Top(m'.held)) == [id] + places[|places| - 1].chain
            && Distinct([id] + places[|places| - 1].chain)
  {
    var m' := Note(m, Some(id));
    InheritsPlace(m.held, m.nodes, places);
    LinksBelow(m.held, m.nodes, m.next);
    FollowKeeps(m.held, m.nodes, m.next, id);
    FollowChains(m.nodes, m.next, id, Top(m.held), None);
    forall i | 0 < i < |m.held|
      ensures Followed(m'.held, m'.nodes, places, i)
    {
      assert Followed(m.held, m.nodes, places, i);
      FollowChains(m.nodes, m.next, id, Top(m.held), m.held[i - 1]);
    }
  }

  /** What is listed inside a directory entry. */
  ghost function Inside(fs: FileSystem, opt: Options, d: Ino, path: Path, chain: seq<LinkId>): seq<Item> {
    if opt.recursive then Walk(fs, opt, d, path, false, chain) else []
  }

  /** A step's type accounts for the difference in what is left to list. */
  ghost predicate Yields(
    fs: FileSystem, opt: Options, before: seq<Item>, t: ListType, path: Path, chain: seq<LinkId>, after: seq<Item>)
  {
    match t
    case ListFile => before == [FileAt(path)] + after
    case ListLink => before == [LinkAt(path)] + after
    case ListError => before == [ErrorAt(path)] + after
    case ListDirectory(d) => before == [DirectoryAt(path)] + Inside(fs, opt, d, path, chain) + after
    case ListDone => before == [] && after == []
  }

  /** A directory that can be pushed: it exists, its walk fits, and no link repeats on the way. */
  ghost predicate Enters(fs: FileSystem, opt: Options, d: Ino, path: Path, chain: seq<LinkId>) {
    d in fs.dirs && Distinct(chain) && (opt.recursive ==> Fits(fs, opt, d, path, false, chain))
  }

  /** What the walk lists for an entry is what its type yields. */
  lemma EntryYields(fs: FileSystem, opt: Options, ino: Ino, pos: nat, prefix: Path, chain: seq<LinkId>, after: seq<Item>)
    requires pos < |EntriesOf(fs, ino)| && FitsEntry(fs, opt, ino, pos, prefix, chain)
    ensures var e := EntriesOf(fs, ino)[pos];
            var seen := Look(opt, e.node, chain);
            var before := WalkEntry(fs, opt, ino, pos, prefix, chain) + after;
            if seen.SeenDirectory? then
              if P.IsDots(e.name) then before == after
              else
                && Yields(fs, opt, before, Listed(seen), prefix + e.name, Follow(chain, seen.via), after)
                && (Distinct(Follow(chain, seen.via)) ==>
                      Enters(fs, opt, seen.ino, prefix + e.name, Follow(chain, seen.via)))
            else forall c :: Yields(fs, opt, before, Listed(seen), prefix + e.name, c, after)
  {
    var e := EntriesOf(fs, ino)[pos];
    var seen := Look(opt, e.node, chain);
    Descends(fs, opt, ino, pos, chain);
    if seen.SeenDirectory? && P.IsDots(e.name) {
      assert [] + after == after;
    }
  }

  /** A step's result: its type accounts for what changed, and a directory may be pushed. */
  ghost predicate Stepped(fs: FileSystem, opt: Options, m: Machine, places: seq<Place>, t: ListType, m': Machine) {
    && Ok(fs, opt, m', places) && SameBelow(m, m')
    && Yields(fs, opt, TopRest(fs, opt, m, places), t, m'.buffer.text, ChainOf(m'.nodes, Top(m'.held)),
              TopRest(fs, opt, m', places))
    && (t.ListDirectory? ==> Enters(fs, opt, t.ino, m'.buffer.text, ChainOf(m'.nodes, Top(m'.held))))
    && (t.ListDirectory? ==> TopFrame(m').isOpen)
  }

  lemma FinishOk(fs: FileSystem, opt: Options, m: Machine, places: seq<Place>)
    requires Ok(fs, opt, m, places) && m.frames != [] && TopFrame(m).isOpen && !TopFrame(m).done
    requires TopFrame(m).pos >= |EntriesOf(fs, TopFrame(m).ino)|
    requires m.buffer.text == Prefix(places[|places| - 1].path, |m.frames| == 1)
    ensures var t := if TopFrame(m).ino in fs.dirs && fs.dirs[TopFrame(m).ino].readsToEnd then ListDone else ListError;
            Stepped(fs, opt, m, places, t, WithFrame(m, TopFrame(m).(done := true)))
  {
    var n := |m.frames| - 1;
    assert FrameOk(fs, opt, m.frames[n], places[n], n == 0);
    FramesTop(fs, opt, m.frames, places, TopFrame(m).(done := true));
  }

  /** Reading one entry, before any dot entry is passed over. */
  lemma ReadOk(fs: FileSystem, opt: Options, m: Machine, places: seq<Place>)
    requires Ok(fs, opt, m, places) && m.frames != [] && TopFrame(m).isOpen && !TopFrame(m).done
    requires TopFrame(m).pos < |EntriesOf(fs, TopFrame(m).ino)|
    requires m.buffer.text == Prefix(places[|places| - 1].path, |m.frames| == 1)
    requires Top(m.held) == Inherited(m.held)
    ensures var e := EntriesOf(fs, TopFrame(m).ino)[TopFrame(m).pos];
            var m1 := Take(m, e.name);
            var seen := LookTop(opt, m1, e.node);
            var m2 := if seen.SeenDirectory? then Note(m1, seen.via) else m1;
            if seen.SeenDirectory? && P.IsDots(e.name) then
              && Ok(fs, opt, m2, places) && SameBelow(m, m2)
              && TopRest(fs, opt, m2, places) == TopRest(fs, opt, m, places)
            else Stepped(fs, opt, m, places, Listed(seen), m2)
  {
    var f, p := TopFrame(m), places[|places| - 1];
    var e := EntriesOf(fs, f.ino)[f.pos];
    TakeOk(fs, opt, m, places);
    var m1 := Take(m, e.name);
    InheritsPlace(m.held, m.nodes, places);
    var seen := LookTop(opt, m1, e.node);
    assert seen == Look(opt, e.node, p.chain);
    EntryYields(fs, opt, f.ino, f.pos, m.buffer.text, p.chain, TopRest(fs, opt, m1, places));
    if seen.SeenDirectory? {
      ReadDirectoryOk(fs, opt, m, m1, places, seen);
    }
  }

  /** A directory entry, once its link, if it was one, is noted. */
  lemma ReadDirectoryOk(fs: FileSystem, opt: Options, m: Machine, m1: Machine, places: seq<Place>, seen: Seen)
    requires seen.SeenDirectory? && Ok(fs, opt, m1, places) && SameBelow(m, m1) && TopFrame(m1).isOpen
    requires m1.held != [] && Top(m1.held) == Inherited(m1.held)
    requires seen.via.Some? ==> seen.via.value !in ChainOf(m1.nodes, Top(m1.held))
    ensures var m2, chain := Note(m1, seen.via), Follow(places[|places| - 1].chain, seen.via);
            && Ok(fs, opt, m2, places) && SameBelow(m, m2)
            && TopRest(fs, opt, m2, places) == TopRest(fs, opt, m1, places)
            && (Yields(fs, opt, TopRest(fs, opt, m, places), Listed(seen), m1.buffer.text, chain, TopRest(fs, opt, m1, places))
                && (Distinct(chain) ==> Enters(fs, opt, seen.ino, m1.buffer.text, chain)) ==>
                  Stepped(fs, opt, m, places, Listed(seen), m2))
  {
    NotedOk(fs, opt, m1, places, seen.via);
    SameBelowNote(m, m1, seen.via);
  }

  /** Noting a link that is not in the chain yet, or none, puts the chain as the walk has it. */
  lemma NotedOk(fs: FileSystem, opt: Options, m: Machine, places: seq<Place>, via: Option<LinkId>)
    requires Ok(fs, opt, m, places) && m.held != [] && Top(m.held) == Inherited(m.held)
    requires via.Some? ==> via.value !in ChainOf(m.nodes, Top(m.held))
    ensures var m' := Note(m, via);
            && Ok(fs, opt, m', places) && m'.buffer == m.buffer && m'.frames == m.frames
            && ChainOf(m'.nodes, Top(m'.held)) == Follow(places[|places| - 1].chain, via)
            && Distinct(Follow(places[|places| - 1].chain, via))
  {
    InheritsPlace(m.held, m.nodes, places);
    if via.Some? {
      NoteOk(fs, opt, m, places, via.value);
    }
  }

  lemma SameBelowNote(m: Machine, m1: Machine, via: Option<LinkId>)
    requires SameBelow(m, m1)
    ensures SameBelow(m, Note(m1, via))
  {
  }

  lemma PrepareOk(fs: FileSystem, opt: Options, m: Machine, places: seq<Place>)
    requires Ok(fs, opt, m, places) && m.frames != [] && !TopFrame(m).done && (TopFrame(m).isOpen || CanOpen(fs, m))
    ensures var m' := Prepare(m);
            && Ok(fs, opt, m', places) && SameBelow(m, m') && TopFrame(m').isOpen && !TopFrame(m').done
            && Unread(fs, m') == Unread(fs, m)
            && TopRest(fs, opt, m', places) == TopRest(fs, opt, m, places)
            && m'.buffer.text == Prefix(places[|places| - 1].path, |m'.frames| == 1)
            && Top(m'.held) == Inherited(m'.held)
  {
    if TopFrame(m).isOpen {
      ResetOk(fs, opt, m, places);
    } else {
      OpenOk(fs, opt, m, places);
      ResetOk(fs, opt, OpenTop(m), places);
    }
  }

  /** A step taken from a state that lists the same is a step from the first. */
  lemma SteppedFrom(fs: FileSystem, opt: Options, m: Machine, m1: Machine, places: seq<Place>, t: ListType, m': Machine)
    requires SameBelow(m, m1) && TopRest(fs, opt, m1, places) == TopRest(fs, opt, m, places)
    requires Stepped(fs, opt, m1, places, t, m')
    ensures Stepped(fs, opt, m, places, t, m')
  {
  }

  /** Every step keeps the listing in order and lists what the walk lists next. */
  lemma {:induction false} NextOk(fs: FileSystem, opt: Options, m: Machine, places: seq<Place>)
    requires Ok(fs, opt, m, places) && m.frames != []
    ensures Stepped(fs, opt, m, places, Next(fs, opt, m).0, Next(fs, opt, m).1)
    decreases Unread(fs, m), 2
  {
    if TopFrame(m).done {
    } else if !TopFrame(m).isOpen && !CanOpen(fs, m) {
      RefusedOk(fs, opt, m, places);
    } else {
      PrepareOk(fs, opt, m, places);
      var m1 := Prepare(m);
      ResumeOk(fs, opt, m1, places);
      SteppedFrom(fs, opt, m, m1, places, Resume(fs, opt, m1).0, Resume(fs, opt, m1).1);
    }
  }

  lemma {:induction false} ResumeOk(fs: FileSystem, opt: Options, m: Machine, places: seq<Place>)
    requires Ok(fs, opt, m, places) && m.frames != [] && TopFrame(m).isOpen && !TopFrame(m).done
    requires m.buffer.text == Prefix(places[|places| - 1].path, |m.frames| == 1)
    requires Top(m.held) == Inherited(m.held)
    ensures Stepped(fs, opt, m, places, Resume(fs, opt, m).0, Resume(fs, opt, m).1)
    decreases Unread(fs, m), 1
  {
    if TopFrame(m).pos < |EntriesOf(fs, TopFrame(m).ino)| {
      ReadEntryOk(fs, opt, m, places);
    } else {
      FinishOk(fs, opt, m, places);
    }
  }

  lemma {:induction false} ReadEntryOk(fs: FileSystem, opt: Options, m: Machine, places: seq<Place>)
    requires Ok(fs, opt, m, places) && m.frames != [] && TopFrame(m).isOpen && !TopFrame(m).done
    requires TopFrame(m).pos < |EntriesOf(fs, TopFrame(m).ino)|
    requires m.buffer.text == Prefix(places[|places| - 1].path, |m.frames| == 1)
    requires Top(m.held) == Inherited(m.held)
    ensures Stepped(fs, opt, m, places, ReadEntry(fs, opt, m).0, ReadEntry(fs, opt, m).1)
    decreases Unread(fs, m), 0
  {
    ReadOk(fs, opt, m, places);
    var e := EntriesOf(fs, TopFrame(m).ino)[TopFrame(m).pos];
    var m1 := Take(m, e.name);
    var seen := LookTop(opt, m1, e.node);
    if seen.SeenDirectory? && P.IsDots(e.name) {
      var m2 := Note(m1, seen.via);
      NextOk(fs, opt, m2, places);
      SteppedFrom(fs, opt, m, m2, places, Next(fs, opt, m2).0, Next(fs, opt, m2).1);
    }
  }

  // ---------- Pushing, popping and listing ----------

  function Push(m: Machine, d: Ino): Machine {
    m.(frames := m.frames + [Frame(d, false, 0, false, 0)], held := m.held + [None])
  }

  /** The top entry goes, freeing the link node it owns. */
  function Pop(m: Machine): Machine {
    if m.frames == [] || m.held == [] then m
    else
      m.(frames := m.frames[..|m.frames| - 1], held := m.held[..|m.held| - 1], nodes := ResetNodes(m.held, m.nodes))
  }

  /** `ListNext`: the state after, and what is handed to the response. */
  function ListNext(fs: FileSystem, opt: Options, m: Machine): (Machine, seq<Item>) {
    var (t, m1) := Next(fs, opt, m);
    (Settle(opt, t, m1), Report(t, m1))
  }

  /** A directory is pushed when listing recursively; a finished entry is popped. */
  function Settle(opt: Options, t: ListType, m: Machine): Machine {
    if t.ListDirectory? && opt.recursive then Push(m, t.ino)
    else if t.ListDone? then Pop(m)
    else m
  }

  function Report(t: ListType, m: Machine): seq<Item> {
    match t
    case ListFile => [FileAt(m.buffer.text)]
    case ListLink => [LinkAt(m.buffer.text)]
    case ListError => [ErrorAt(m.buffer.text)]
    case ListDirectory(_) => [DirectoryAt(m.buffer.text)]
    case ListDone => if |m.frames| <= 1 then [Done] else []
  }

  /** The places after `ListNext`. */
  function PlacesAfter(fs: FileSystem, opt: Options, m: Machine, places: seq<Place>): seq<Place> {
    var (t, m1) := Next(fs, opt, m);
    if t.ListDirectory? && opt.recursive then places + [Place(m1.buffer.text, ChainOf(m1.nodes, Top(m1.held)))]
    else if t.ListDone? && places != [] then places[..|places| - 1]
    else places
  }

  /** What is still to come, with the marker at the end. */
  ghost function Ahead(fs: FileSystem, opt: Options, m: Machine, places: seq<Place>): seq<Item> {
    if m.frames == [] then [] else Pending(fs, opt, m.frames, places) + [Done]
  }

  lemma PushFrames(fs: FileSystem, opt: Options, frames: seq<Frame>, places: seq<Place>, f: Frame, p: Place)
    requires frames != [] && FramesOk(fs, opt, frames, places) && frames[|frames| - 1].isOpen
    requires FrameOk(fs, opt, f, p, false) && Prefix(places[|places| - 1].path, |places| == 1) <= p.path
    ensures FramesOk(fs, opt, frames + [f], places + [p])
  {
    var places' := places + [p];
    forall i | 0 < i < |places'|
      ensures Under(places', i)
    {
      assert i < |places| ==> Under(places, i);
    }
  }

  lemma PushChains(held: Links, nodes: map<Addr, LinkNode>, next: Addr, places: seq<Place>, p: Place)
    requires held != [] && ChainsOk(held, nodes, places) && LinksOk(held, nodes, next)
    requires p.chain == ChainOf(nodes, Top(held)) && Distinct(p.chain)
    ensures ChainsOk(held + [None], nodes, places + [p]) && LinksOk(held + [None], nodes, next)
  {
    var held', places' := held + [None], places + [p];
    forall i | 0 < i < |places'|
      ensures Followed(held', nodes, places', i)
    {
      assert i < |places| ==> Followed(held, nodes, places, i);
    }
    assert held'[..|held|] == held;
  }

  lemma PendingPushed(fs: FileSystem, opt: Options, frames: seq<Frame>, places: seq<Place>, f: Frame, p: Place)
    requires frames != []
    ensures Pending(fs, opt, frames + [f], places + [p]) == Rest(fs, opt, f, p, false) + Pending(fs, opt, frames, places)
  {
    assert (frames + [f])[..|frames|] == frames && (places + [p])[..|places|] == places;
  }

  lemma PushOk(fs: FileSystem, opt: Options, m: Machine, places: seq<Place>, d: Ino)
    requires Ok(fs, opt, m, places) && m.frames != [] && TopFrame(m).isOpen && opt.recursive
    requires Enters(fs, opt, d, m.buffer.text, ChainOf(m.nodes, Top(m.held)))
    ensures var p := Place(m.buffer.text, ChainOf(m.nodes, Top(m.held)));
            && Ok(fs, opt, Push(m, d), places + [p])
            && Pending(fs, opt, Push(m, d).frames, places + [p]) ==
               Inside(fs, opt, d, p.path, p.chain) + Pending(fs, opt, m.frames, places)
  {
    var f, p := Frame(d, false, 0, false, 0), Place(m.buffer.text, ChainOf(m.nodes, Top(m.held)));
    PushFrames(fs, opt, m.frames, places, f, p);
    PushChains(m.held, m.nodes, m.next, places, p);
    PendingPushed(fs, opt, m.frames, places, f, p);
  }

  lemma PopFrames(fs: FileSystem, opt: Options, frames: seq<Frame>, places: seq<Place>)
    requires frames != [] && FramesOk(fs, opt, frames, places)
    ensures FramesOk(fs, opt, frames[..|frames| - 1], places[..|frames| - 1])
  {
    var n := |frames| - 1;
    var places' := places[..n];
    forall i | 0 < i < n
      ensures Under(places', i)
    {
      assert Under(places, i);
    }
  }

  lemma PopBuffer(fs: FileSystem, opt: Options, buffer: Buffer, frames: seq<Frame>, places: seq<Place>)
    requires frames != [] && FramesOk(fs, opt, frames, places) && BufferOk(buffer, frames, places)
    ensures BufferOk(buffer, frames[..|frames| - 1], places[..|frames| - 1])
  {
    var n := |frames| - 1;
    if n > 0 {
      assert Under(places, n);
      assert places[n].path <= buffer.text;
    }
  }

  lemma PopOk(fs: FileSystem, opt: Options, m: Machine, places: seq<Place>)
    requires Ok(fs, opt, m, places) && m.frames != []
    ensures Ok(fs, opt, Pop(m), places[..|places| - 1])
  {
    ResetKeeps(m.held, m.nodes, m.next);
    ResetChainsOk(m.held, m.nodes, m.next, places);
    PopFrames(fs, opt, m.frames, places);
    PopBuffer(fs, opt, m.buffer, m.frames, places);
  }

  /** What is left when only the top frame has changed. */
  lemma PendingTop(fs: FileSystem, opt: Options, m: Machine, m': Machine, places: seq<Place>)
    requires SameBelow(m, m') && |places| == |m.frames|
    ensures var below := Pending(fs, opt, m.frames[..|m.frames| - 1], places[..|places| - 1]);
            && Pending(fs, opt, m.frames, places) == TopRest(fs, opt, m, places) + below
            && Pending(fs, opt, m'.frames, places) == TopRest(fs, opt, m', places) + below
  {
  }

  /** A step that hands over one item and keeps the stack as it is. */
  lemma Reported(fs: FileSystem, opt: Options, m: Machine, m': Machine, places: seq<Place>, item: Item)
    requires SameBelow(m, m') && |places| == |m.frames|
    requires TopRest(fs, opt, m, places) == [item] + TopRest(fs, opt, m', places)
    ensures Ahead(fs, opt, m, places) == [item] + Ahead(fs, opt, m', places)
  {
    PendingTop(fs, opt, m, m', places);
    Regroup([item], [], TopRest(fs, opt, m', places), Pending(fs, opt, m.frames[..|m.frames| - 1], places[..|places| - 1]));
    assert [item] + [] == [item] && [] + Pending(fs, opt, m'.frames, places) == Pending(fs, opt, m'.frames, places);
  }

  lemma Regroup(first: seq<Item>, inside: seq<Item>, rest: seq<Item>, below: seq<Item>)
    ensures first + inside + rest + below + [Done] == first + (inside + (rest + below) + [Done])
  {
  }

  /** A step that pushes: the item, then what is inside, then the rest. */
  lemma Descended(fs: FileSystem, opt: Options, m: Machine, m': Machine, places: seq<Place>, d: Ino, p: Place)
    requires SameBelow(m, m') && |places| == |m.frames| && opt.recursive
    requires TopRest(fs, opt, m, places) ==
             [DirectoryAt(p.path)] + Inside(fs, opt, d, p.path, p.chain) + TopRest(fs, opt, m', places)
    requires Pending(fs, opt, Push(m', d).frames, places + [p]) ==
             Inside(fs, opt, d, p.path, p.chain) + Pending(fs, opt, m'.frames, places)
    ensures Ahead(fs, opt, m, places) == [DirectoryAt(p.path)] + Ahead(fs, opt, Push(m', d), places + [p])
  {
    PendingTop(fs, opt, m, m', places);
    Regroup([DirectoryAt(p.path)], Inside(fs, opt, d, p.path, p.chain), TopRest(fs, opt, m', places),
            Pending(fs, opt, m.frames[..|m.frames| - 1], places[..|places| - 1]));
  }

  /** A step that pops: nothing but the marker, after the last frame. */
  lemma Returned(fs: FileSystem, opt: Options, m: Machine, m': Machine, places: seq<Place>)
    requires SameBelow(m, m') && |places| == |m.frames| == |m'.held| && TopRest(fs, opt, m, places) == []
    ensures Ahead(fs, opt, m, places) ==
            (if |m.frames| == 1 then [Done] else []) + Ahead(fs, opt, Pop(m'), places[..|places| - 1])
  {
    PendingTop(fs, opt, m, m', places);
    var below := Pending(fs, opt, m.frames[..|m.frames| - 1], places[..|places| - 1]);
    assert [] + below == below;
    assert |m.frames| == 1 ==> below == [];
  }

  /** Each turn of the loop hands over exactly what the walk lists next, and keeps the rest. */
  lemma ListNextOk(fs: FileSystem, opt: Options, m: Machine, places: seq<Place>)
    requires Ok(fs, opt, m, places) && m.frames != []
    ensures var (m', items) := ListNext(fs, opt, m);
            var places' := PlacesAfter(fs, opt, m, places);
            && Ok(fs, opt, m', places')
            && Ahead(fs, opt, m, places) == items + Ahead(fs, opt, m', places')
            && (items == [] ==> |m'.frames| < |m.frames| && m'.frames != [])
            && |items| <= 1
  {
    NextOk(fs, opt, m, places);
    var (t, m1) := Next(fs, opt, m);
    var path := m1.buffer.text;
    match t
    case ListDone =>
      PopOk(fs, opt, m1, places);
      Returned(fs, opt, m, m1, places);
    case ListDirectory(d) =>
      if opt.recursive {
        PushOk(fs, opt, m1, places, d);
        Descended(fs, opt, m, m1, places, d, Place(path, ChainOf(m1.nodes, Top(m1.held))));
      } else {
        assert [DirectoryAt(path)] + [] == [DirectoryAt(path)];
        Reported(fs, opt, m, m1, places, DirectoryAt(path));
      }
    case ListFile => Reported(fs, opt, m, m1, places, FileAt(path));
    case ListLink => Reported(fs, opt, m, m1, places, LinkAt(path));
    case ListError => Reported(fs, opt, m, m1, places, ErrorAt(path));
  }

  // ---------- The response ----------

  /** A slot of the response array. */
  datatype Cell = Unset | Kind(code: nat) | Bytes(path: Path) | ErrorInfo(path: Path) | Null

  function CellsOf(item: Item): (r: seq<Cell>)
    ensures |r| == 2
  {
    match item
    case FileAt(path) => [Kind(0), Bytes(path)]
    case DirectoryAt(path) => [Kind(1), Bytes(path)]
    case LinkAt(path) => [Kind(2), Bytes(path)]
    case ErrorAt(path) => [Kind(3), ErrorInfo(path)]
    case Done => [Kind(4), Null]
  }

  function AllCells(items: seq<Item>): seq<Cell> {
    if items == [] then [] else CellsOf(items[0]) + AllCells(items[1..])
  }

  lemma {:induction false} AllCellsConcat(a: seq<Item>, b: seq<Item>)
    ensures AllCells(a + b) == AllCells(a) + AllCells(b)
  {
    if a == [] {
      assert a + b == b;
    } else {
      assert (a + b)[1..] == a[1..] + b;
      AllCellsConcat(a[1..], b);
    }
  }

  /** The codes of the response. */
  lemma CodesAre(path: Path)
    ensures CellsOf(FileAt(path)) == [Kind(0), Bytes(path)] && CellsOf(DirectoryAt(path)) == [Kind(1), Bytes(path)]
    ensures CellsOf(LinkAt(path)) == [Kind(2), Bytes(path)] && CellsOf(ErrorAt(path)) == [Kind(3), ErrorInfo(path)]
    ensures CellsOf(Done) == [Kind(4), Null]
  {
  }

  /** A response tells what was listed. */
  lemma {:induction false} CellsTellItems(a: seq<Item>, b: seq<Item>)
    requires AllCells(a) == AllCells(b)
    ensures a == b
  {
    if a != [] && b != [] {
      var x, y := AllCells(a), AllCells(b);
      assert x[..2] == CellsOf(a[0]) && y[..2] == CellsOf(b[0]);
      assert x[2..] == AllCells(a[1..]) && y[2..] == AllCells(b[1..]);
      CellsTellItems(a[1..], b[1..]);
      CellsTellItem(a[0], b[0]);
      assert a == [a[0]] + a[1..] && b == [b[0]] + b[1..];
    }
  }

  lemma CellsTellItem(a: Item, b: Item)
    requires CellsOf(a) == CellsOf(b)
    ensures a == b
  {
    assert CellsOf(a)[0] == CellsOf(b)[0] && CellsOf(a)[1] == CellsOf(b)[1];
  }

  lemma AllCellsOne(item: Item)
    ensures AllCells([item]) == CellsOf(item)
  {
    assert [item][1..] == [];
  }

  function Concat(batches: seq<seq<Cell>>): seq<Cell> {
    if batches == [] then [] else Concat(batches[..|batches| - 1]) + batches[|batches| - 1]
  }

  class AsyncDirectoryListing {
    const fs: FileSystem
    const opt: Options
    var buffer: Buffer
    var frames: seq<Frame>
    var held: Links
    var nodes: map<Addr, LinkNode>
    var next: Addr
    ghost var places: seq<Place>

    var response: array<Cell>
    var index: nat

    ghost function Now(): Machine
      reads `buffer, `frames, `held, `nodes, `next
    {
      Machine(buffer, frames, held, nodes, next)
    }

    ghost predicate Valid()
      reads `buffer, `frames, `held, `nodes, `next, `places
    {
      Ok(fs, opt, Now(), places)
    }

    ghost function ToCome(): seq<Item>
      reads `buffer, `frames, `held, `nodes, `next, `places
    {
      Ahead(fs, opt, Now(), places)
    }

    constructor (fs: FileSystem, opt: Options, ino: Ino, path: Path)
      requires ino in fs.dirs && Fits(fs, opt, ino, path, true, [])
      ensures Valid() && frames != [] && this.fs == fs && this.opt == opt
      ensures ToCome() == Walk(fs, opt, ino, path, true, []) + [Done]
    {
      this.fs, this.opt := fs, opt;
      buffer := Buffer(path, |path|);
      frames := [Frame(ino, false, 0, false, 0)];
      held, nodes, next := [None], map[], 0;
      places := [Place(path, [])];
      response, index := new Cell[0], 0;
      StartOk(fs, opt, ino, path);
    }

    method SetTop(f: Frame)
      requires frames != []
      modifies `frames
      ensures Now() == WithFrame(old(Now()), f)
    {
      frames := frames[|frames| - 1 := f];
    }

    /** `PathBuffer::Reset` and `ResetLink` for the top entry, after opening it if need be. */
    method PrepareTop()
      requires Valid() && frames != [] && |frames| == |held| && !TopFrame(Now()).done
      requires TopFrame(Now()).isOpen || CanOpen(fs, Now())
      modifies `buffer, `frames, `held, `nodes
      ensures Now() == Prepare(old(Now()))
    {
      if !frames[|frames| - 1].isOpen {
        OpenTopEntry();
      }
      ResetTopEntry();
    }

    method OpenTopEntry()
      requires frames != [] && Tidy(buffer)
      modifies `buffer, `frames
      ensures Now() == OpenTop(old(Now()))
    {
      if |frames| > 1 {
        buffer := Appended(buffer, "/");
      }
      SetTop(frames[|frames| - 1].(isOpen := true, pos := 0, pathLength := buffer.length));
    }

    method ResetTopEntry()
      requires frames != [] && |frames| == |held|
      modifies `buffer, `held, `nodes
      ensures Now() == ResetTop(old(Now()))
    {
      var length := frames[|frames| - 1].pathLength;
      buffer := Buffer(buffer.text[..Min(length, |buffer.text|)], length);
      var parent := if |frames| == 1 then None else held[|held| - 2];
      var link := held[|held| - 1];
      if link.Some? && link != parent {
        nodes := nodes - {link.value};
      }
      held := held[|held| - 1 := parent];
    }

    /** Scans the chain of followed links for one. */
    method InChain(id: LinkId, link: Option<Addr>) returns (found: bool)
      requires NodesOk(nodes, next) && (link.Some? ==> link.value in nodes)
      ensures found <==> id in ChainOf(nodes, link)
    {
      var previous := link;
      while previous.Some?
        invariant previous.Some? ==> previous.value in nodes
        invariant id in ChainOf(nodes, link) <==> id in ChainOf(nodes, previous)
        decreases if previous.Some? then previous.value + 1 else 0
      {
        if nodes[previous.value].id == id {
          return true;
        }
        previous := nodes[previous.value].next;
      }
      found := false;
    }

    /** The type of an entry; a link that leads to a directory is noted on the chain. */
    method TypeOf(node: Node) returns (t: ListType)
      requires held != [] && LinksOk(held, nodes, next)
      modifies `held, `nodes, `next
      ensures var seen := LookTop(opt, old(Now()), node);
              t == Listed(seen) && Now() == if seen.SeenDirectory? then Note(old(Now()), seen.via) else old(Now())
    {
      match node
      case File => return ListFile;
      case SubDirectory(d) => return ListDirectory(d);
      case Unstatable => return ListError;
      case Link(id, target) =>
        if !opt.followLinks { return ListLink; }
        var link := held[|held| - 1];
        LinksBelow(held, nodes, next);
        var loops := InChain(id, link);
        if loops { return ListLink; }
        match target {
          case Broken => return ListLink;
          case ToOther => return ListFile;
          case ToDirectory(d) =>
            nodes := nodes[next := LinkNode(id, link)];
            held := held[|held| - 1 := Some(next)];
            next := next + 1;
            return ListDirectory(d);
        }
    }

    /** `DirectoryListingEntry::Next` on the top entry. */
    method NextEntry() returns (t: ListType)
      requires Valid() && frames != []
      modifies `buffer, `frames, `held, `nodes, `next
      ensures (t, Now()) == Next(fs, opt, old(Now()))
      decreases Unread(fs, Now()), 2
    {
      var top := frames[|frames| - 1];
      if top.done {
        return ListDone;
      }
      if !top.isOpen && !fs.dirs[top.ino].opens {
        SetTop(top.(done := true));
        return ListError;
      }
      ReadyTop();
      t := ResumeTop();
    }

    method ReadyTop()
      requires Valid() && frames != [] && !TopFrame(Now()).done
      requires TopFrame(Now()).isOpen || CanOpen(fs, Now())
      modifies `buffer, `frames, `held, `nodes
      ensures Now() == Prepare(old(Now())) && Ready() && Unread(fs, Now()) == old(Unread(fs, Now()))
    {
      PrepareOk(fs, opt, Now(), places);
      PrepareTop();
    }

    /** The top directory is open, and the buffer and the chain are as its next entry needs them. */
    ghost predicate Ready()
      reads `buffer, `frames, `held, `nodes, `next, `places
    {
      && Valid() && frames != [] && TopFrame(Now()).isOpen && !TopFrame(Now()).done
      && buffer.text == Prefix(places[|places| - 1].path, |frames| == 1) && Top(held) == Inherited(held)
    }

    method ResumeTop() returns (t: ListType)
      requires Ready()
      modifies `buffer, `frames, `held, `nodes, `next
      ensures (t, Now()) == Resume(fs, opt, old(Now()))
      decreases Unread(fs, Now()), 1
    {
      var top := frames[|frames| - 1];
      if top.pos < |EntriesOf(fs, top.ino)| {
        t := ReadTop();
      } else {
        SetTop(top.(done := true));
        t := if fs.dirs[top.ino].readsToEnd then ListDone else ListError;
      }
    }

    /** Reads the next entry of the top directory; a dot entry is passed over. */
    method ReadTop() returns (t: ListType)
      requires Ready() && TopFrame(Now()).pos < |EntriesOf(fs, TopFrame(Now()).ino)|
      modifies `buffer, `frames, `held, `nodes, `next
      ensures (t, Now()) == ReadEntry(fs, opt, old(Now()))
      decreases Unread(fs, Now()), 0
    {
      ReadAgain(fs, opt, Now(), places);
      ReadEntryIs(fs, opt, Now());
      var top := frames[|frames| - 1];
      t := TakeTop();
      if t.ListDirectory? && P.IsDots(EntriesOf(fs, top.ino)[top.pos].name) {
        t := NextEntry();
      }
    }

    /** Takes one entry, whatever its name. */
    method TakeTop() returns (t: ListType)
      requires frames != [] && TopFrame(Now()).pos < |EntriesOf(fs, TopFrame(Now()).ino)|
      requires Tidy(buffer) && held != [] && LinksOk(held, nodes, next)
      modifies `buffer, `frames, `held, `nodes, `next
      ensures var m := old(Now());
              var e := EntriesOf(fs, TopFrame(m).ino)[TopFrame(m).pos];
              t == Listed(LookTop(opt, Take(m, e.name), e.node)) && Now() == AfterEntry(fs, opt, m)
    {
      var top := frames[|frames| - 1];
      var e := EntriesOf(fs, top.ino)[top.pos];
      TakeName(e.name);
      t := TypeOf(e.node);
    }

    /** Steps past an entry and appends its name. */
    method TakeName(name: Path)
      requires Tidy(buffer) && frames != []
      modifies `buffer, `frames
      ensures Now() == Take(old(Now()), name)
    {
      var top := frames[|frames| - 1];
      SetTop(top.(pos := top.pos + 1));
      buffer := Appended(buffer, name);
    }

    method PopTop()
      requires frames != [] && |frames| == |held| && LinksOk(held, nodes, next)
      modifies `frames, `held, `nodes
      ensures Now() == Pop(old(Now())) && LinksOk(held, nodes, next) && |frames| == |held|
    {
      ResetKeeps(held, nodes, next);
      var parent := if |frames| == 1 then None else held[|held| - 2];
      var link := held[|held| - 1];
      if link.Some? && link != parent {
        nodes := nodes - {link.value};
      }
      frames, held := frames[..|frames| - 1], held[..|held| - 1];
    }

    /** Stopping early: every entry goes, and with it every link node. */
    method PopAll()
      requires |frames| == |held| && LinksOk(held, nodes, next)
      modifies `frames, `held, `nodes
      ensures frames == [] && nodes == map[]
    {
      while frames != []
        invariant |frames| == |held| && LinksOk(held, nodes, next)
        decreases |frames|
      {
        PopTop();
      }
    }

    /** Two slots of the response; whether there is room for more. */
    method AddToResponse(item: Item) returns (more: bool)
      requires index + 2 <= response.Length
      modifies response, `index
      ensures index == old(index) + 2 && response[..index] == old(response[..index]) + CellsOf(item)
      ensures more == (index < response.Length)
    {
      ghost var was := response[..index];
      response[index] := CellsOf(item)[0];
      response[index + 1] := CellsOf(item)[1];
      index := index + 2;
      assert response[..index] == was + [CellsOf(item)[0], CellsOf(item)[1]];
      more := index < response.Length;
    }

    /** The push or pop that follows a step. */
    method SettleTop(t: ListType)
      requires frames != [] && |frames| == |held| && LinksOk(held, nodes, next)
      modifies `frames, `held, `nodes
      ensures Now() == Settle(opt, t, old(Now()))
    {
      if t.ListDirectory? && opt.recursive {
        frames, held := frames + [Frame(t.ino, false, 0, false, 0)], held + [None];
      } else if t.ListDone? {
        PopTop();
      }
    }

    /** Hands what a step found to the response. */
    method Handle(items: seq<Item>)
      requires |items| <= 1 && index + 2 <= response.Length
      modifies `index, response
      ensures index == old(index) + 2 * |items|
      ensures response[..index] == old(response[..index]) + AllCells(items)
    {
      if items != [] {
        AllCellsOne(items[0]);
        assert items == [items[0]];
        var _ := AddToResponse(items[0]);
      }
    }

    /** `ListNext`: one item to the response, or one entry popped; whether to go on. */
    method ListNextItem() returns (more: bool, ghost items: seq<Item>)
      requires Valid() && frames != [] && index + 2 <= response.Length
      modifies `buffer, `frames, `held, `nodes, `next, `places, `index, response
      ensures Valid() && old(ToCome()) == items + ToCome()
      ensures items == [] ==> |frames| < |old(frames)|
      ensures index == old(index) + 2 * |items| && |items| <= 1
      ensures response[..index] == old(response[..index]) + AllCells(items)
      ensures more <==> frames != [] && index < response.Length
    {
      var found := Advance();
      items := found;
      Handle(found);
      more := frames != [] && index < response.Length;
    }

    /** One step of the listing, and what it found. */
    method Advance() returns (found: seq<Item>)
      requires Valid() && frames != []
      modifies `buffer, `frames, `held, `nodes, `next, `places
      ensures Valid() && old(ToCome()) == found + ToCome()
      ensures |found| <= 1 && (found == [] ==> |frames| < |old(frames)|)
    {
      ghost var m := Now();
      ListNextOk(fs, opt, m, places);
      found := StepTop();
      places := PlacesAfter(fs, opt, m, places);
      assert Now() == ListNext(fs, opt, m).0;
    }

    method StepTop() returns (found: seq<Item>)
      requires Valid() && frames != []
      modifies `buffer, `frames, `held, `nodes, `next
      ensures (Now(), found) == ListNext(fs, opt, old(Now()))
    {
      NextLinks(fs, opt, Now(), places);
      var t := NextEntry();
      found := Report(t, Machine(buffer, frames, held, nodes, next));
      SettleTop(t);
    }

    /** Lists until the response is full or the listing is over. */
    method List() returns (ghost items: seq<Item>)
      requires Valid() && frames != [] && index == 0 && response.Length > 0 && response.Length % 2 == 0
      modifies `buffer, `frames, `held, `nodes, `next, `places, `index, response
      ensures Valid() && index <= response.Length && response[..index] == AllCells(items)
      ensures old(ToCome()) == items + ToCome() && (frames == [] || items != [])
      ensures frames == [] || index == response.Length
    {
      items := [];
      ghost var all := ToCome();
      var more := true;
      while more
        invariant Valid() && index <= response.Length && Split(all, items, ToCome())
        invariant index == 2 * |items| && response[..index] == AllCells(items)
        invariant more <==> frames != [] && index < response.Length
        decreases |ToCome()|, |frames|
      {
        more, items := ListStep(all, items);
      }
    }

    method ListStep(ghost all: seq<Item>, ghost items: seq<Item>) returns (more: bool, ghost items': seq<Item>)
      requires Valid() && frames != [] && index + 2 <= response.Length
      requires Split(all, items, ToCome()) && index == 2 * |items| && response[..index] == AllCells(items)
      modifies `buffer, `frames, `held, `nodes, `next, `places, `index, response
      ensures Valid() && Split(all, items', ToCome())
      ensures index == 2 * |items'| <= response.Length && response[..index] == AllCells(items')
      ensures more <==> frames != [] && index < response.Length
      ensures |ToCome()| < old(|ToCome()|) || (|ToCome()| == old(|ToCome()|) && |frames| < old(|frames|))
    {
      ghost var before, added := ToCome(), [];
      more, added := ListNextItem();
      items' := items + added;
      AllCellsConcat(items, added);
      SplitMore(all, items, before, added, ToCome());
    }

    /** `ListNextRequest`: a batch of at most `size` slots. */
    method ListNextRequest(size: nat) returns (batch: seq<Cell>, ghost items: seq<Item>)
      requires Valid() && size > 0 && size % 2 == 0
      modifies `buffer, `frames, `held, `nodes, `next, `places, `index, `response
      ensures Valid() && |batch| <= size && batch == AllCells(items)
      ensures old(ToCome()) == items + ToCome()
      ensures frames == [] || |batch| == size
    {
      if frames == [] {
        return [], [];
      }
      response, index := new Cell[size](_ => Unset), 0;
      items := List();
      batch := response[..index];
    }

    /** Requests until the listing is over: the walk, then one marker, whatever the batch size. */
    method ListAll(size: nat) returns (batches: seq<seq<Cell>>)
      requires Valid() && size > 0 && size % 2 == 0
      modifies `buffer, `frames, `held, `nodes, `next, `places, `index, `response
      ensures Concat(batches) == AllCells(old(ToCome()))
      ensures forall i :: 0 <= i < |batches| ==> |batches[i]| <= size
      ensures frames == [] && nodes == map[]
    {
      batches := [];
      ghost var all, listed: seq<Item> := ToCome(), [];
      while frames != []
        invariant Valid() && Split(all, listed, ToCome()) && Concat(batches) == AllCells(listed)
        invariant forall i :: 0 <= i < |batches| ==> |batches[i]| <= size
        decreases |ToCome()|, |frames|
      {
        ghost var before := ToCome();
        var batch, items := ListNextRequest(size);
        AllCellsConcat(listed, items);
        SplitMore(all, listed, before, items, ToCome());
        ConcatSnoc(batches, batch);
        batches := batches + [batch];
        listed := listed + items;
      }
      ListedAll(fs, opt, Now(), places, all, listed);
    }
  }

  /** `all` is what was listed, then what is to come. */
  ghost predicate Split(all: seq<Item>, listed: seq<Item>, ahead: seq<Item>) {
    all == listed + ahead
  }

  lemma SplitMore(all: seq<Item>, listed: seq<Item>, before: seq<Item>, added: seq<Item>, after: seq<Item>)
    requires Split(all, listed, before) && before == added + after
    ensures Split(all, listed + added, after)
  {
  }

  lemma ConcatSnoc(batches: seq<seq<Cell>>, batch: seq<Cell>)
    ensures Concat(batches + [batch]) == Concat(batches) + batch
  {
    assert (batches + [batch])[..|batches|] == batches;
  }

  /** With no frame left everything has been listed and no link node is live. */
  lemma ListedAll(fs: FileSystem, opt: Options, m: Machine, places: seq<Place>, all: seq<Item>, listed: seq<Item>)
    requires Ok(fs, opt, m, places) && m.frames == [] && Split(all, listed, Ahead(fs, opt, m, places))
    ensures all == listed && m.nodes == map[]
  {
    assert m.held == [];
  }

  /** After a step the frames and their links are still in order. */
  lemma NextLinks(fs: FileSystem, opt: Options, m: Machine, places: seq<Place>)
    requires Ok(fs, opt, m, places) && m.frames != []
    ensures var m' := Next(fs, opt, m).1;
            m'.frames != [] && |m'.frames| == |m'.held| && LinksOk(m'.held, m'.nodes, m'.next)
  {
    NextOk(fs, opt, m, places);
  }

  /** The state after one entry, from which a dot entry is passed over. */
  function AfterEntry(fs: FileSystem, opt: Options, m: Machine): Machine
    requires TopFrame(m).pos < |EntriesOf(fs, TopFrame(m).ino)|
  {
    var e := EntriesOf(fs, TopFrame(m).ino)[TopFrame(m).pos];
    var m1 := Take(m, e.name);
    var seen := LookTop(opt, m1, e.node);
    if seen.SeenDirectory? then Note(m1, seen.via) else m1
  }

  lemma ReadEntryIs(fs: FileSystem, opt: Options, m: Machine)
    requires TopFrame(m).isOpen && TopFrame(m).pos < |EntriesOf(fs, TopFrame(m).ino)|
    ensures var e := EntriesOf(fs, TopFrame(m).ino)[TopFrame(m).pos];
            var t := Listed(LookTop(opt, Take(m, e.name), e.node));
            ReadEntry(fs, opt, m) ==
            if t.ListDirectory? && P.IsDots(e.name) then Next(fs, opt, AfterEntry(fs, opt, m))
            else (t, AfterEntry(fs, opt, m))
  {
  }

  lemma ReadAgain(fs: FileSystem, opt: Options, m: Machine, places: seq<Place>)
    requires Ok(fs, opt, m, places) && m.frames != [] && TopFrame(m).isOpen && !TopFrame(m).done
    requires TopFrame(m).pos < |EntriesOf(fs, TopFrame(m).ino)|
    requires m.buffer.text == Prefix(places[|places| - 1].path, |m.frames| == 1)
    requires Top(m.held) == Inherited(m.held)
    ensures Ok(fs, opt, AfterEntry(fs, opt, m), places) && AfterEntry(fs, opt, m).frames != []
    ensures Unread(fs, AfterEntry(fs, opt, m)) == Unread(fs, m) - 1
    ensures Tidy(m.buffer) && m.held != [] && LinksOk(m.held, m.nodes, m.next)
  {
    ReadOk(fs, opt, m, places);
  }

  lemma StartOk(fs: FileSystem, opt: Options, ino: Ino, path: Path)
    requires ino in fs.dirs && Fits(fs, opt, ino, path, true, [])
    ensures var f, p := Frame(ino, false, 0, false, 0), Place(path, []);
            var m := Machine(Buffer(path, |path|), [f], [None], map[], 0);
            && Ok(fs, opt, m, [p])
            && Ahead(fs, opt, m, [p]) == Walk(fs, opt, ino, path, true, []) + [Done]
  {
    var f, p := Frame(ino, false, 0, false, 0), Place(path, []);
    var frames, places := [f], [p];
    var held: Links := [None];
    assert held[..0] == [] && frames[..0] == [] && places[..0] == [];
    assert Walk(fs, opt, ino, path, true, []) + [] == Walk(fs, opt, ino, path, true, []);
    assert Pending(fs, opt, frames, places) == Rest(fs, opt, f, p, true) + Pending(fs, opt, frames[..0], places[..0]);
  }
}
