/**
 * The lexical path cleaner of `File::CleanUnixPath`.
 *
 * The specification is the component-stack reading of Plan 9's "Lexical File
 * Names" rules: split at '/', fold the components over a stack, and print the
 * stack.  The index loop over two buffers is proved to compute exactly that,
 * and the specification is proved to be the right one: it preserves where a
 * path leads in every tree-shaped name space, it is idempotent, and two paths
 * are cleaned to the same string exactly when they lead to the same place from
 * every directory of the name space in which every name exists.
 */
module UnixPath {
  import opened Basics

  type Name = seq<char>

  const DOT: Name := "."
  const DOTDOT: Name := ".."

  // ---------- Components of a path ----------

  /** A C string holds no NUL before its terminator. */
  predicate CString(s: seq<char>) {
    forall i :: 0 <= i < |s| ==> s[i] != '\0'
  }

  /** What `s[i]` reads when `s` is followed by its NUL terminator. */
  function At(s: seq<char>, i: nat): char {
    if i < |s| then s[i] else '\0'
  }

  predicate NoSlash(s: Name) {
    forall i :: 0 <= i < |s| ==> s[i] != '/'
  }

  /** The length of the component `s` starts with. */
  function ComponentLength(s: seq<char>): (n: nat)
    ensures n <= |s| && NoSlash(s[..n])
    ensures n < |s| ==> s[n] == '/'
  {
    if s == [] || s[0] == '/' then 0
    else
      assert s[..1 + ComponentLength(s[1..])] == [s[0]] + s[1..][..ComponentLength(s[1..])];
      1 + ComponentLength(s[1..])
  }

  /** The non-empty components of a path, in order. */
  function Components(s: seq<char>): seq<Name>
    decreases |s|
  {
    if s == [] then []
    else if s[0] == '/' then Components(s[1..])
    else [s[..ComponentLength(s)]] + Components(s[ComponentLength(s)..])
  }

  predicate IsDots(c: Name) {
    c == DOT || c == DOTDOT
  }

  predicate IsComponent(c: Name) {
    c != [] && NoSlash(c)
  }

  /** A component that names something below the current directory. */
  predicate IsName(c: Name) {
    IsComponent(c) && c != DOT && c != DOTDOT
  }

  predicate Rooted(s: seq<char>) {
    s != [] && s[0] == '/'
  }

  // ---------- The component-stack specification ----------

  /** What is kept of the components read so far: leading '..'s, then names. */
  datatype Stack = Stack(ups: nat, names: seq<Name>)

  const EMPTY := Stack(0, [])

  /** One component's effect on the stack. */
  function Push(rooted: bool, st: Stack, c: Name): Stack {
    if c == DOT then st
    else if c != DOTDOT then st.(names := st.names + [c])
    else if st.names != [] then st.(names := st.names[..|st.names| - 1])
    else if rooted then st
    else st.(ups := st.ups + 1)
  }

  function PushAll(rooted: bool, st: Stack, cs: seq<Name>): Stack
    decreases |cs|
  {
    if cs == [] then st else PushAll(rooted, Push(rooted, st, cs[0]), cs[1..])
  }

  function CleanStack(s: seq<char>): Stack {
    PushAll(Rooted(s), EMPTY, Components(s))
  }

  function DotDots(n: nat): seq<Name> {
    if n == 0 then [] else DotDots(n - 1) + [DOTDOT]
  }

  /** The components of a stack, as a path would list them. */
  function Listed(st: Stack): seq<Name> {
    DotDots(st.ups) + st.names
  }

  /** Components with a separator between each two. */
  function Join(cs: seq<Name>): seq<char>
    decreases |cs|
  {
    if cs == [] then []
    else if |cs| == 1 then cs[0]
    else Join(cs[..|cs| - 1]) + "/" + cs[|cs| - 1]
  }

  /** What the output buffer holds for a stack. */
  function Printed(rooted: bool, st: Stack): seq<char> {
    (if rooted then "/" else "") + Join(Listed(st))
  }

  /** The cleaned path. */
  function Clean(s: seq<char>): seq<char> {
    var out := Printed(Rooted(s), CleanStack(s));
    if out == [] then DOT else out
  }

  /** The stacks cleaning produces. */
  predicate Canonical(rooted: bool, st: Stack) {
    && (rooted ==> st.ups == 0)
    && forall i :: 0 <= i < |st.names| ==> IsName(st.names[i])
  }

  // ---------- Splitting ----------

  /** A run of `n` non-slash characters ended by a slash or the end is the first component. */
  lemma ComponentLengthIs(s: seq<char>, n: nat)
    requires n <= |s| && NoSlash(s[..n])
    requires n < |s| ==> s[n] == '/'
    ensures ComponentLength(s) == n
  {
    var m := ComponentLength(s);
    assert forall k :: 0 <= k < n ==> s[..n][k] == s[k];
    assert forall k :: 0 <= k < m ==> s[..m][k] == s[k];
  }

  lemma {:induction false} ComponentsAre(s: seq<char>)
    ensures forall i :: 0 <= i < |Components(s)| ==> IsComponent(Components(s)[i])
    decreases |s|
  {
    if s == [] {
    } else if s[0] == '/' {
      ComponentsAre(s[1..]);
    } else {
      ComponentsAre(s[ComponentLength(s)..]);
    }
  }

  /** A first component stays the first component when more is appended at a separator. */
  lemma ComponentStarts(a: seq<char>, b: seq<char>)
    requires a != [] && a[0] != '/'
    requires b == [] || b[0] == '/' || a[|a| - 1] == '/'
    ensures ComponentLength(a) > 0
    ensures Components(a + b) == [a[..ComponentLength(a)]] + Components(a[ComponentLength(a)..] + b)
  {
    FirstLength(a, b);
    CutBefore(a, b, ComponentLength(a));
  }

  lemma CutBefore(a: seq<char>, b: seq<char>, n: nat)
    requires n <= |a|
    ensures (a + b)[..n] == a[..n] && (a + b)[n..] == a[n..] + b
  {
  }

  lemma FirstLength(a: seq<char>, b: seq<char>)
    requires a != [] && a[0] != '/'
    requires b == [] || b[0] == '/' || a[|a| - 1] == '/'
    ensures ComponentLength(a + b) == ComponentLength(a) > 0
  {
    var n := ComponentLength(a);
    assert (a + b)[..n] == a[..n];
    assert n > 0 ==> a[..n][n - 1] == a[n - 1];
    ComponentLengthIs(a + b, n);
  }

  /** Splitting distributes over concatenation at a separator. */
  lemma {:induction false} ComponentsConcat(a: seq<char>, b: seq<char>)
    requires b == [] || b[0] == '/' || a == [] || a[|a| - 1] == '/'
    ensures Components(a + b) == Components(a) + Components(b)
    decreases |a|
  {
    if a == [] {
      assert a + b == b;
    } else if a[0] == '/' {
      assert (a + b)[1..] == a[1..] + b;
      ComponentsConcat(a[1..], b);
    } else {
      ComponentStarts(a, b);
      var first, rest := a[..ComponentLength(a)], a[ComponentLength(a)..];
      assert rest != [] ==> rest[|rest| - 1] == a[|a| - 1];
      ComponentsConcat(rest, b);
      calc {
        Components(a + b);
        [first] + Components(rest + b);
        [first] + (Components(rest) + Components(b));
        [first] + Components(rest) + Components(b);
        Components(a) + Components(b);
      }
    }
  }

  lemma ComponentsOne(c: Name)
    requires IsComponent(c)
    ensures Components(c) == [c]
  {
    assert c[..|c|] == c && c[|c|..] == [];
    ComponentLengthIs(c, |c|);
    assert c[0] != '/';
  }

  lemma {:induction false} PushAllConcat(rooted: bool, st: Stack, a: seq<Name>, b: seq<Name>)
    ensures PushAll(rooted, st, a + b) == PushAll(rooted, PushAll(rooted, st, a), b)
    decreases |a|
  {
    if a == [] {
      assert a + b == b;
    } else {
      assert (a + b)[1..] == a[1..] + b;
      PushAllConcat(rooted, Push(rooted, st, a[0]), a[1..], b);
    }
  }

  lemma PushAllOne(rooted: bool, st: Stack, c: Name)
    ensures PushAll(rooted, st, [c]) == Push(rooted, st, c)
  {
    assert [c][1..] == [];
  }

  lemma {:induction false} PushAllCanonical(rooted: bool, st: Stack, cs: seq<Name>)
    requires Canonical(rooted, st)
    requires forall i :: 0 <= i < |cs| ==> IsComponent(cs[i])
    ensures Canonical(rooted, PushAll(rooted, st, cs))
    decreases |cs|
  {
    if cs != [] {
      PushAllCanonical(rooted, Push(rooted, st, cs[0]), cs[1..]);
    }
  }

  lemma CleanStackCanonical(s: seq<char>)
    ensures Canonical(Rooted(s), CleanStack(s))
  {
    ComponentsAre(s);
    PushAllCanonical(Rooted(s), EMPTY, Components(s));
  }

  lemma {:induction false} PushDotDots(n: nat)
    ensures PushAll(false, EMPTY, DotDots(n)) == Stack(n, [])
  {
    if n > 0 {
      PushDotDots(n - 1);
      PushAllConcat(false, EMPTY, DotDots(n - 1), [DOTDOT]);
      PushAllOne(false, Stack(n - 1, []), DOTDOT);
    }
  }

  lemma {:induction false} PushNames(rooted: bool, st: Stack, names: seq<Name>)
    requires forall i :: 0 <= i < |names| ==> IsName(names[i])
    ensures PushAll(rooted, st, names) == st.(names := st.names + names)
    decreases |names|
  {
    if names != [] {
      PushNames(rooted, Push(rooted, st, names[0]), names[1..]);
      assert st.names + [names[0]] + names[1..] == st.names + names;
    } else {
      assert st.names + names == st.names;
    }
  }

  /** A canonical stack's components go back on the stack unchanged. */
  lemma PushListed(rooted: bool, st: Stack)
    requires Canonical(rooted, st)
    ensures PushAll(rooted, EMPTY, Listed(st)) == st
  {
    if rooted {
      assert DotDots(st.ups) == [] && Listed(st) == st.names;
      PushNames(rooted, EMPTY, st.names);
      assert [] + st.names == st.names;
    } else {
      PushDotDots(st.ups);
      PushAllConcat(rooted, EMPTY, DotDots(st.ups), st.names);
      PushNames(rooted, Stack(st.ups, []), st.names);
      assert [] + st.names == st.names;
    }
  }

  // ---------- Printing is undone by splitting ----------

  lemma {:induction false} DotDotsAre(n: nat)
    ensures |DotDots(n)| == n && forall i :: 0 <= i < n ==> DotDots(n)[i] == DOTDOT
  {
    if n > 0 {
      DotDotsAre(n - 1);
    }
  }

  lemma ListedAre(rooted: bool, st: Stack)
    requires Canonical(rooted, st)
    ensures |Listed(st)| == st.ups + |st.names|
    ensures forall i :: 0 <= i < |Listed(st)| ==> IsComponent(Listed(st)[i])
  {
    DotDotsAre(st.ups);
  }

  lemma {:induction false} JoinSplits(cs: seq<Name>)
    requires forall i :: 0 <= i < |cs| ==> IsComponent(cs[i])
    ensures Components(Join(cs)) == cs
    ensures cs != [] ==> Join(cs) != [] && Join(cs)[0] != '/'
    decreases |cs|
  {
    if |cs| == 1 {
      ComponentsOne(cs[0]);
    } else if cs != [] {
      var front, last := cs[..|cs| - 1], cs[|cs| - 1];
      JoinSplits(front);
      var tail := "/" + last;
      assert Join(cs) == Join(front) + tail;
      ComponentsConcat(Join(front), tail);
      assert tail[1..] == last;
      ComponentsOne(last);
      assert cs == front + [last];
    }
  }

  /** The cleaned string splits into the components of the stack it was printed from. */
  lemma CleanSplits(s: seq<char>)
    ensures Rooted(Clean(s)) == Rooted(s)
    ensures Components(Clean(s)) == if Clean(s) == DOT then [DOT] else Listed(CleanStack(s))
    ensures Clean(s) == DOT ==> CleanStack(s) == EMPTY && !Rooted(s)
  {
    CleanStackCanonical(s);
    PrintedSplits(Rooted(s), CleanStack(s));
    ComponentsOne(DOT);
  }

  lemma PrintedSplits(rooted: bool, st: Stack)
    requires Canonical(rooted, st)
    ensures var out := Printed(rooted, st);
            && Rooted(out) == rooted && Components(out) == Listed(st)
            && out != DOT && (out == [] ==> st == EMPTY)
  {
    ListedAre(rooted, st);
    JoinSplits(Listed(st));
    var out := Printed(rooted, st);
    if rooted {
      assert out[1..] == Join(Listed(st));
    } else {
      assert out == Join(Listed(st));
      ComponentsOne(DOT);
      NoDotListed(rooted, st);
    }
  }

  lemma NoDotListed(rooted: bool, st: Stack)
    requires Canonical(rooted, st)
    ensures Listed(st) != [DOT]
  {
    DotDotsAre(st.ups);
    assert |Listed(st)| > 0 ==> Listed(st)[0] != DOT;
  }

  lemma CleanStackOfClean(s: seq<char>)
    ensures CleanStack(Clean(s)) == CleanStack(s)
  {
    CleanSplits(s);
    CleanStackCanonical(s);
    PushListed(Rooted(s), CleanStack(s));
    PushAllOne(false, EMPTY, DOT);
  }

  /** Cleaning a cleaned path changes nothing. */
  lemma CleanIdempotent(s: seq<char>)
    ensures Clean(Clean(s)) == Clean(s)
  {
    CleanSplits(s);
    CleanStackOfClean(s);
  }

  // ---------- Where a path leads ----------

  /** A name space: what each directory's names lead to, and its '..'. */
  datatype NameSpace<!N> = NameSpace(root: N, child: (N, Name) -> Option<N>, parent: N -> N)

  /** No links: a child's '..' is the directory it was reached from, and the root is its own parent. */
  ghost predicate TreeShaped<N(!new)>(ns: NameSpace<N>) {
    && ns.parent(ns.root) == ns.root
    && forall d: N, x: Name :: IsName(x) && ns.child(d, x).Some? ==> ns.parent(ns.child(d, x).value) == d
  }

  function Step<N>(ns: NameSpace<N>, d: N, c: Name): Option<N> {
    if c == DOT then Some(d) else if c == DOTDOT then Some(ns.parent(d)) else ns.child(d, c)
  }

  function Walk<N>(ns: NameSpace<N>, d: N, cs: seq<Name>): Option<N>
    decreases |cs|
  {
    if cs == [] then Some(d)
    else match Step(ns, d, cs[0])
      case None => None
      case Some(e) => Walk(ns, e, cs[1..])
  }

  function Start<N>(ns: NameSpace<N>, cwd: N, rooted: bool): N {
    if rooted then ns.root else cwd
  }

  /** The node a path names when looked up from `cwd`. */
  function Resolve<N>(ns: NameSpace<N>, cwd: N, s: seq<char>): Option<N> {
    Walk(ns, Start(ns, cwd, Rooted(s)), Components(s))
  }

  lemma {:induction false} WalkConcat<N>(ns: NameSpace<N>, d: N, a: seq<Name>, b: seq<Name>)
    ensures Walk(ns, d, a + b) == match Walk(ns, d, a) case None => None case Some(e) => Walk(ns, e, b)
    decreases |a|
  {
    if a == [] {
      assert a + b == b;
    } else {
      assert (a + b)[1..] == a[1..] + b;
      if Step(ns, d, a[0]).Some? {
        WalkConcat(ns, Step(ns, d, a[0]).value, a[1..], b);
      }
    }
  }

  lemma WalkSnoc<N>(ns: NameSpace<N>, d: N, a: seq<Name>, c: Name)
    ensures Walk(ns, d, a + [c]) == match Walk(ns, d, a) case None => None case Some(e) => Step(ns, e, c)
  {
    WalkConcat(ns, d, a, [c]);
    if Walk(ns, d, a).Some? {
      assert [c][1..] == [];
    }
  }

  /** Pushing a component moves the node the stack leads to. */
  lemma PushWalks<N(!new)>(ns: NameSpace<N>, rooted: bool, start: N, st: Stack, c: Name, d: N, e: N)
    requires TreeShaped(ns) && Canonical(rooted, st)
    requires rooted ==> start == ns.root
    requires Walk(ns, start, Listed(st)) == Some(d) && Step(ns, d, c) == Some(e)
    ensures Walk(ns, start, Listed(Push(rooted, st, c))) == Some(e)
  {
    var n := |st.names|;
    if c == DOT {
    } else if c != DOTDOT {
      assert Listed(Push(rooted, st, c)) == Listed(st) + [c];
      WalkSnoc(ns, start, Listed(st), c);
    } else if n > 0 {
      var shorter := Listed(Push(rooted, st, c));
      assert Listed(st) == shorter + [st.names[n - 1]];
      WalkSnoc(ns, start, shorter, st.names[n - 1]);
      assert IsName(st.names[n - 1]);
      assert ns.child(Walk(ns, start, shorter).value, st.names[n - 1]) == Some(d);
    } else if rooted {
      assert Listed(st) == [];
    } else {
      assert Listed(Push(rooted, st, c)) == Listed(st) + [c];
      WalkSnoc(ns, start, Listed(st), c);
    }
  }

  lemma {:induction false} PushAllWalks<N(!new)>(
    ns: NameSpace<N>, rooted: bool, start: N, st: Stack, cs: seq<Name>, d: N, e: N)
    requires TreeShaped(ns) && Canonical(rooted, st)
    requires forall i :: 0 <= i < |cs| ==> IsComponent(cs[i])
    requires rooted ==> start == ns.root
    requires Walk(ns, start, Listed(st)) == Some(d) && Walk(ns, d, cs) == Some(e)
    ensures Walk(ns, start, Listed(PushAll(rooted, st, cs))) == Some(e)
    decreases |cs|
  {
    if cs != [] {
      var f := Step(ns, d, cs[0]).value;
      PushWalks(ns, rooted, start, st, cs[0], d, f);
      PushAllWalks(ns, rooted, start, Push(rooted, st, cs[0]), cs[1..], f, e);
    }
  }

  lemma ResolveCleaned<N>(ns: NameSpace<N>, cwd: N, s: seq<char>)
    ensures Resolve(ns, cwd, Clean(s)) == Walk(ns, Start(ns, cwd, Rooted(s)), Listed(CleanStack(s)))
  {
    CleanSplits(s);
    assert [DOT][1..] == [];
  }

  /** Where a path leads, its cleaned form leads too, from every directory of every tree-shaped name space. */
  lemma CleanPreservesMeaning<N(!new)>(ns: NameSpace<N>, cwd: N, s: seq<char>)
    requires TreeShaped(ns) && Resolve(ns, cwd, s).Some?
    ensures Resolve(ns, cwd, Clean(s)) == Resolve(ns, cwd, s)
  {
    var start := Start(ns, cwd, Rooted(s));
    ResolveCleaned(ns, cwd, s);
    ComponentsAre(s);
    assert Listed(EMPTY) == [];
    PushAllWalks(ns, Rooted(s), start, EMPTY, Components(s), start, Resolve(ns, cwd, s).value);
  }

  /** A name followed by '..' is cleaned away. */
  lemma NameThenUp(x: Name)
    requires IsName(x)
    ensures !Rooted(x + "/..") && Components(x + "/..") == [x, DOTDOT] && Clean(x + "/..") == DOT
  {
    assert "/.."[1..] == DOTDOT;
    ComponentsConcat(x, "/..");
    ComponentsOne(x);
    ComponentsOne(DOTDOT);
    PushAllConcat(false, EMPTY, [x], [DOTDOT]);
    PushAllOne(false, EMPTY, x);
    PushAllOne(false, Stack(0, [x]), DOTDOT);
    assert CleanStack(x + "/..") == EMPTY;
    assert Listed(EMPTY) == [];
  }

  lemma UpFromRoot()
    ensures Rooted("/..") && Components("/..") == [DOTDOT] && Clean("/..") == "/" && Components("/") == []
  {
    assert "/.."[1..] == DOTDOT && "/"[1..] == [];
    ComponentsOne(DOTDOT);
    PushAllOne(true, EMPTY, DOTDOT);
    assert Listed(EMPTY) == [];
  }

  /** Every path that leads somewhere is cleaned to one that leads to the same place. */
  ghost predicate CleaningIsSound<N(!new)>(ns: NameSpace<N>) {
    forall cwd: N, s: seq<char> :: SameWhenCleaned(ns, cwd, s)
  }

  ghost predicate SameWhenCleaned<N>(ns: NameSpace<N>, cwd: N, s: seq<char>) {
    Resolve(ns, cwd, s).Some? ==> Resolve(ns, cwd, Clean(s)) == Resolve(ns, cwd, s)
  }

  lemma ResolveNameThenUp<N>(ns: NameSpace<N>, d: N, x: Name)
    requires IsName(x) && ns.child(d, x).Some?
    ensures Resolve(ns, d, x + "/..") == Some(ns.parent(ns.child(d, x).value))
    ensures Resolve(ns, d, Clean(x + "/..")) == Some(d)
  {
    NameThenUp(x);
    ComponentsOne(DOT);
    assert [x, DOTDOT][1..] == [DOTDOT] && [DOT][1..] == [];
    WalkSnoc(ns, d, [x], DOTDOT);
    assert [x] + [DOTDOT] == [x, DOTDOT];
    assert !Rooted(DOT) && Walk(ns, d, [DOT]) == Some(d);
  }

  lemma ResolveUpFromRoot<N>(ns: NameSpace<N>)
    ensures Resolve(ns, ns.root, "/..") == Some(ns.parent(ns.root))
    ensures Resolve(ns, ns.root, Clean("/..")) == Some(ns.root)
  {
    UpFromRoot();
    assert [DOTDOT][1..] == [];
  }

  lemma SoundAtName<N(!new)>(ns: NameSpace<N>, d: N, x: Name)
    requires CleaningIsSound(ns) && IsName(x) && ns.child(d, x).Some?
    ensures ns.parent(ns.child(d, x).value) == d
  {
    ResolveNameThenUp(ns, d, x);
    var s := x + "/..";
    assert SameWhenCleaned(ns, d, s);
  }

  lemma SoundAtRoot<N(!new)>(ns: NameSpace<N>)
    requires CleaningIsSound(ns)
    ensures ns.parent(ns.root) == ns.root
  {
    ResolveUpFromRoot(ns);
    var s := "/..";
    assert SameWhenCleaned(ns, ns.root, s);
  }

  lemma TreeIsSound<N(!new)>(ns: NameSpace<N>)
    requires TreeShaped(ns)
    ensures CleaningIsSound(ns)
  {
    forall cwd: N, s: seq<char>
      ensures SameWhenCleaned(ns, cwd, s)
    {
      if Resolve(ns, cwd, s).Some? {
        CleanPreservesMeaning(ns, cwd, s);
      }
    }
  }

  /** Cleaning keeps the meaning of every path exactly in the tree-shaped name spaces: a link breaks it. */
  lemma CleaningNeedsATree<N(!new)>(ns: NameSpace<N>)
    ensures TreeShaped(ns) <==> CleaningIsSound(ns)
  {
    if TreeShaped(ns) {
      TreeIsSound(ns);
    }
    if CleaningIsSound(ns) {
      SoundAtRoot(ns);
      forall d: N, x: Name | IsName(x) && ns.child(d, x).Some?
        ensures ns.parent(ns.child(d, x).value) == d
      {
        SoundAtName(ns, d, x);
      }
    }
  }

  // ---------- Cleaning identifies no more paths than it must ----------

  /** The name space in which every name exists: a directory is the list of names leading to it. */
  function FreeSpace(): NameSpace<seq<Name>> {
    NameSpace(
      [],
      (d: seq<Name>, x: Name) => Some(d + [x]),
      (d: seq<Name>) => if d == [] then d else d[..|d| - 1])
  }

  /** Two paths lead to the same place from every directory of the free name space. */
  ghost predicate SameMeaning(s: seq<char>, t: seq<char>) {
    forall cwd: seq<Name> :: Resolve(FreeSpace(), cwd, s) == Resolve(FreeSpace(), cwd, t)
  }

  lemma FreeSpaceIsTreeShaped()
    ensures TreeShaped(FreeSpace())
  {
    var ns := FreeSpace();
    forall d: seq<Name>, x: Name
      ensures ns.parent(ns.child(d, x).value) == d
    {
      assert (d + [x])[..|d|] == d;
    }
  }

  lemma {:induction false} FreeWalkTotal(d: seq<Name>, cs: seq<Name>)
    ensures Walk(FreeSpace(), d, cs).Some?
    decreases |cs|
  {
    if cs != [] {
      FreeWalkTotal(Step(FreeSpace(), d, cs[0]).value, cs[1..]);
    }
  }

  lemma {:induction false} FreeWalkUp(d: seq<Name>, n: nat)
    requires n <= |d|
    ensures Walk(FreeSpace(), d, DotDots(n)) == Some(d[..|d| - n])
  {
    if n == 0 {
      assert d[..|d|] == d;
    } else {
      FreeWalkUp(d, n - 1);
      WalkSnoc(FreeSpace(), d, DotDots(n - 1), DOTDOT);
      assert d[..|d| - (n - 1)][..|d| - n] == d[..|d| - n];
    }
  }

  lemma {:induction false} FreeWalkDown(d: seq<Name>, names: seq<Name>)
    requires forall i :: 0 <= i < |names| ==> IsName(names[i])
    ensures Walk(FreeSpace(), d, names) == Some(d + names)
    decreases |names|
  {
    if names == [] {
      assert d + names == d;
    } else {
      FreeWalkDown(d + [names[0]], names[1..]);
      assert d + [names[0]] + names[1..] == d + names;
    }
  }

  /** From a deep enough directory a canonical stack climbs its '..'s and descends its names. */
  lemma FreeWalk(d: seq<Name>, rooted: bool, st: Stack)
    requires Canonical(rooted, st) && st.ups <= |d|
    ensures Walk(FreeSpace(), d, Listed(st)) == Some(d[..|d| - st.ups] + st.names)
  {
    FreeWalkUp(d, st.ups);
    FreeWalkDown(d[..|d| - st.ups], st.names);
    WalkConcat(FreeSpace(), d, DotDots(st.ups), st.names);
  }

  /** Where a path leads in the free name space. */
  lemma FreeResolve(d: seq<Name>, s: seq<char>)
    requires CleanStack(s).ups <= |d|
    ensures Resolve(FreeSpace(), d, s) ==
            Some((if Rooted(s) then [] else d[..|d| - CleanStack(s).ups]) + CleanStack(s).names)
  {
    var start := Start(FreeSpace(), d, Rooted(s));
    FreeWalksStack(d, s);
    CleanStackCanonical(s);
    assert Rooted(s) ==> CleanStack(s).ups == 0;
    FreeWalk(start, Rooted(s), CleanStack(s));
  }

  lemma FreeWalksStack(d: seq<Name>, s: seq<char>)
    ensures Resolve(FreeSpace(), d, s) == Walk(FreeSpace(), Start(FreeSpace(), d, Rooted(s)), Listed(CleanStack(s)))
  {
    FreeSpaceIsTreeShaped();
    FreeWalkTotal(Start(FreeSpace(), d, Rooted(s)), Components(s));
    CleanPreservesMeaning(FreeSpace(), d, s);
    ResolveCleaned(FreeSpace(), d, s);
  }

  /** A name longer than every name of `cs`, hence none of them. */
  function FreshName(cs: seq<Name>): (x: Name)
    ensures x != [] && forall i :: 0 <= i < |cs| ==> |cs[i]| < |x|
  {
    if cs == [] then "x" else
      var y := FreshName(cs[1..]);
      assert forall i :: 1 <= i < |cs| ==> cs[i] == cs[1..][i - 1];
      y + cs[0]
  }

  /** Below a directory of fresh names, the place reached determines how far up and which names down. */
  lemma PlacesDiffer(x: Name, k: nat, l: nat, a: seq<Name>, b: seq<Name>)
    requires seq(k, i => x) + a == seq(l, i => x) + b
    requires x !in a && x !in b
    ensures k == l && a == b
  {
    var p, q := seq(k, i => x) + a, seq(l, i => x) + b;
    assert k < |p| ==> p[k] in a;
    assert l < |q| ==> q[l] in b;
    assert forall i :: 0 <= i < k ==> p[i] == x;
    assert forall i :: 0 <= i < l ==> q[i] == x;
    assert a == p[k..] && b == q[l..];
  }

  /** The place a path leads to from `n` levels of directories all called `x`. */
  lemma FreePlace(x: Name, n: nat, s: seq<char>)
    requires CleanStack(s).ups <= n
    ensures Resolve(FreeSpace(), seq(n, i => x), s) ==
            Some(seq(if Rooted(s) then 0 else n - CleanStack(s).ups, i => x) + CleanStack(s).names)
  {
    var d := seq(n, i => x);
    FreeResolve(d, s);
    assert (if Rooted(s) then [] else d[..n - CleanStack(s).ups]) ==
           seq(if Rooted(s) then 0 else n - CleanStack(s).ups, i => x);
  }

  lemma SameMeaningSameClean(s: seq<char>, t: seq<char>)
    requires SameMeaning(s, t)
    ensures Clean(s) == Clean(t)
  {
    var a, b := CleanStack(s), CleanStack(t);
    CleanStackCanonical(s);
    CleanStackCanonical(t);
    var all := a.names + b.names;
    var x := FreshName(all);
    assert x !in a.names && x !in b.names by {
      assert forall i :: 0 <= i < |a.names| ==> all[i] == a.names[i];
      assert forall i :: 0 <= i < |b.names| ==> all[|a.names| + i] == b.names[i];
    }
    var n := a.ups + b.ups + 1;
    FreePlace(x, n, s);
    FreePlace(x, n, t);
    assert Resolve(FreeSpace(), seq(n, i => x), s) == Resolve(FreeSpace(), seq(n, i => x), t);
    PlacesDiffer(x, if Rooted(s) then 0 else n - a.ups, if Rooted(t) then 0 else n - b.ups, a.names, b.names);
    assert a == b && Rooted(s) == Rooted(t);
  }

  lemma SameCleanSameMeaning(s: seq<char>, t: seq<char>)
    requires Clean(s) == Clean(t)
    ensures SameMeaning(s, t)
  {
    FreeSpaceIsTreeShaped();
    forall cwd: seq<Name>
      ensures Resolve(FreeSpace(), cwd, s) == Resolve(FreeSpace(), cwd, t)
    {
      FreeWalkTotal(Start(FreeSpace(), cwd, Rooted(s)), Components(s));
      FreeWalkTotal(Start(FreeSpace(), cwd, Rooted(t)), Components(t));
      CleanPreservesMeaning(FreeSpace(), cwd, s);
      CleanPreservesMeaning(FreeSpace(), cwd, t);
    }
  }

  /** The cleaned form is a complete invariant of what a path means lexically. */
  lemma CleanIsExact(s: seq<char>, t: seq<char>)
    ensures Clean(s) == Clean(t) <==> SameMeaning(s, t)
  {
    if Clean(s) == Clean(t) {
      SameCleanSameMeaning(s, t);
    }
    if SameMeaning(s, t) {
      SameMeaningSameClean(s, t);
    }
  }

  /** Paths cleaned alike agree in every tree-shaped name space in which both lead somewhere. */
  lemma CleanAlikeAgree<N(!new)>(ns: NameSpace<N>, cwd: N, s: seq<char>, t: seq<char>)
    requires TreeShaped(ns) && Clean(s) == Clean(t)
    requires Resolve(ns, cwd, s).Some? && Resolve(ns, cwd, t).Some?
    ensures Resolve(ns, cwd, s) == Resolve(ns, cwd, t)
  {
    CleanPreservesMeaning(ns, cwd, s);
    CleanPreservesMeaning(ns, cwd, t);
  }

  /** So they agree in every tree-shaped name space exactly when they are cleaned alike. */
  lemma CleanAlikeIff(s: seq<char>, t: seq<char>)
    ensures Clean(s) == Clean(t) <==>
            forall ns: NameSpace<seq<Name>>, cwd: seq<Name> ::
              TreeShaped(ns) && Resolve(ns, cwd, s).Some? && Resolve(ns, cwd, t).Some? ==>
                Resolve(ns, cwd, s) == Resolve(ns, cwd, t)
  {
    if Clean(s) == Clean(t) {
      forall ns: NameSpace<seq<Name>>, cwd: seq<Name> |
        TreeShaped(ns) && Resolve(ns, cwd, s).Some? && Resolve(ns, cwd, t).Some?
        ensures Resolve(ns, cwd, s) == Resolve(ns, cwd, t)
      {
        CleanAlikeAgree(ns, cwd, s, t);
      }
    } else {
      CleanIsExact(s, t);
      var cwd :| Resolve(FreeSpace(), cwd, s) != Resolve(FreeSpace(), cwd, t);
      FreeSpaceIsTreeShaped();
      FreeWalkTotal(Start(FreeSpace(), cwd, Rooted(s)), Components(s));
      FreeWalkTotal(Start(FreeSpace(), cwd, Rooted(t)), Components(t));
    }
  }

  // ---------- The buffer loop ----------

  /** Printing one more component: the separator is due unless nothing precedes it. */
  lemma JoinSnoc(cs: seq<Name>, c: Name)
    ensures Join(cs + [c]) == Join(cs) + (if cs == [] then [] else "/") + c
  {
    assert (cs + [c])[..|cs|] == cs;
    if cs == [] {
      assert cs + [c] == [c];
    }
  }

  /** A '/' is due before the next component unless nothing but the root has been printed. */
  function Separator(st: Stack): seq<char> {
    if st == EMPTY then "" else "/"
  }

  lemma PrintedName(rooted: bool, st: Stack, c: Name)
    requires Canonical(rooted, st)
    ensures Printed(rooted, st.(names := st.names + [c])) == Printed(rooted, st) + Separator(st) + c
  {
    ListedAre(rooted, st);
    assert Listed(st.(names := st.names + [c])) == Listed(st) + [c];
    JoinSnoc(Listed(st), c);
  }

  lemma PrintedUp(n: nat)
    ensures Printed(false, Stack(n + 1, [])) == Printed(false, Stack(n, [])) + Separator(Stack(n, [])) + DOTDOT
  {
    DotDotsAre(n);
    assert Listed(Stack(n + 1, [])) == Listed(Stack(n, [])) + [DOTDOT];
    JoinSnoc(Listed(Stack(n, [])), DOTDOT);
  }

  /** The output is nothing but the root exactly for the empty stack. */
  lemma PrintedEmpty(rooted: bool, st: Stack)
    requires Canonical(rooted, st)
    ensures |Printed(rooted, st)| == (if rooted then 1 else 0) <==> st == EMPTY
  {
    ListedAre(rooted, st);
    JoinSplits(Listed(st));
  }

  /** The output index '..' cannot clean past: the length of the '..'s alone. */
  ghost function Barrier(rooted: bool, st: Stack): nat {
    |Printed(rooted, Stack(st.ups, []))|
  }

  lemma {:induction false} BarrierGuards(rooted: bool, st: Stack)
    requires Canonical(rooted, st)
    ensures Barrier(rooted, st) <= |Printed(rooted, st)|
    ensures |Printed(rooted, st)| > Barrier(rooted, st) <==> st.names != []
    decreases |st.names|
  {
    if st.names == [] {
      assert st == Stack(st.ups, []);
    } else {
      var n := |st.names| - 1;
      var shorter := st.(names := st.names[..n]);
      BarrierGuards(rooted, shorter);
      assert st == shorter.(names := shorter.names + [st.names[n]]);
      PrintedName(rooted, shorter, st.names[n]);
      assert IsName(st.names[n]);
    }
  }

  /** The stack after the first `i` characters of the input. */
  ghost function ReadUpTo(s: seq<char>, i: nat): Stack
    requires i <= |s|
  {
    PushAll(Rooted(s), EMPTY, Components(s[..i]))
  }

  lemma ReadComponent(s: seq<char>, i: nat, j: nat)
    requires i < j <= |s| && IsComponent(s[i..j])
    requires i == 0 || s[i - 1] == '/'
    ensures ReadUpTo(s, j) == Push(Rooted(s), ReadUpTo(s, i), s[i..j])
  {
    assert s[..j] == s[..i] + s[i..j];
    assert i > 0 ==> s[..i][i - 1] == s[i - 1];
    ComponentsConcat(s[..i], s[i..j]);
    ComponentsOne(s[i..j]);
    PushAllConcat(Rooted(s), EMPTY, Components(s[..i]), [s[i..j]]);
    PushAllOne(Rooted(s), ReadUpTo(s, i), s[i..j]);
  }

  lemma ReadSlash(s: seq<char>, i: nat)
    requires i < |s| && s[i] == '/'
    ensures ReadUpTo(s, i + 1) == ReadUpTo(s, i)
  {
    assert s[..i + 1] == s[..i] + "/" && "/"[1..] == [];
    ComponentsConcat(s[..i], "/");
    assert Components(s[..i]) + Components("/") == Components(s[..i]);
  }

  lemma ReadCanonical(s: seq<char>, i: nat)
    requires i <= |s|
    ensures Canonical(Rooted(s), ReadUpTo(s, i))
  {
    ComponentsAre(s[..i]);
    PushAllCanonical(Rooted(s), EMPTY, Components(s[..i]));
  }

  /**
   * How far the output may have got.  It never overtakes the input, and when a
   * component is about to be read it is one behind if a separator is due.
   */
  ghost predicate RoomLeft(s: seq<char>, inIndex: nat, outIndex: nat) {
    && outIndex <= inIndex <= |s|
    && (0 < inIndex < |s| && s[inIndex] != '/' ==>
          && s[inIndex - 1] == '/'
          && (outIndex < inIndex || outIndex == if Rooted(s) then 1 else 0))
  }

  /** The loop's state: the output is that of the input read so far. */
  ghost predicate Progress(s: seq<char>, inIndex: nat, out: seq<char>, dotdot: nat) {
    && RoomLeft(s, inIndex, |out|)
    && out == Printed(Rooted(s), ReadUpTo(s, inIndex))
    && dotdot == Barrier(Rooted(s), ReadUpTo(s, inIndex))
  }

  predicate IsSeparator(c: char) {
    c == '/' || c == '\0'
  }

  /**
   * The cleaner itself.  `out` is the caller's buffer; the bound checks look at
   * the input index only.  It fails exactly when the input with its terminator
   * does not fit the buffer, and otherwise leaves the cleaned path, terminated.
   */
  method CleanUnixPath(input: seq<char>, out: array<char>) returns (r: int)
    requires CString(input) && out.Length >= 2
    modifies out
    ensures r == -1 <==> |input| >= out.Length
    ensures r != -1 ==> 0 < r < out.Length && out[..r] == Clean(input) && out[r] == '\0'
    ensures r != -1 && input != [] ==> r <= |input|
  {
    if At(input, 0) == '\0' {
      assert input == [] && Clean(input) == DOT;
      out[0], out[1] := '.', '\0';
      return 1;
    }

    var rooted := input[0] == '/';
    var inIndex: nat, outIndex: nat := 0, 0;
    if rooted {
      out[outIndex] := '/';
      outIndex := outIndex + 1;
      inIndex := inIndex + 1;
    }
    // What is printed up to here stays, whatever '..' follows.
    var dotdot := outIndex;
    NothingRead(input);
    assert out[..outIndex] == if rooted then "/" else "";

    var fits;
    fits, outIndex := CleanElements(input, out, inIndex, outIndex, dotdot, rooted);
    if !fits { return -1; }
    r := Terminate(out, outIndex);
  }

  method CleanElements(input: seq<char>, out: array<char>, inStart: nat, outStart: nat, barrier: nat, rooted: bool)
    returns (fits: bool, outIndex: nat)
    requires CString(input) && inStart <= |input| && inStart < out.Length && rooted == Rooted(input)
    requires outStart <= inStart && Progress(input, inStart, out[..outStart], barrier)
    modifies out
    ensures fits <==> |input| < out.Length
    ensures fits ==> outIndex <= |input| && Clean(input) == if outIndex == 0 then DOT else out[..outIndex]
  {
    var inIndex, dotdot := inStart, barrier;
    outIndex := outStart;
    while At(input, inIndex) != '\0'
      invariant inIndex < out.Length && outIndex <= inIndex <= |input|
      invariant Progress(input, inIndex, out[..outIndex], dotdot)
      decreases |input| - inIndex
    {
      fits, inIndex, outIndex, dotdot := CleanElement(input, out, inIndex, outIndex, dotdot, rooted);
      if !fits { return; }
    }
    AllRead(input, out[..outIndex], dotdot);
    fits := true;
  }

  /** Ends the output, which is '.' when nothing was written. */
  method Terminate(out: array<char>, outIndex: nat) returns (r: int)
    requires outIndex < out.Length && out.Length >= 2
    modifies out
    ensures r == if outIndex == 0 then 1 else outIndex
    ensures out[r] == '\0' && out[..r] == if outIndex == 0 then DOT else old(out[..outIndex])
  {
    if outIndex == 0 {
      out[0], out[1] := '.', '\0';
      return 1;
    }
    out[outIndex] := '\0';
    return outIndex;
  }

  lemma NothingRead(s: seq<char>)
    requires s != []
    ensures Progress(s, if Rooted(s) then 1 else 0, if Rooted(s) then "/" else "", if Rooted(s) then 1 else 0)
  {
    assert s[..0] == [];
    if Rooted(s) {
      ReadSlash(s, 0);
    }
    assert Printed(Rooted(s), EMPTY) == if Rooted(s) then "/" else "";
  }

  lemma AllRead(s: seq<char>, out: seq<char>, dotdot: nat)
    requires Progress(s, |s|, out, dotdot)
    ensures Clean(s) == if out == [] then DOT else out
  {
    assert s[..|s|] == s;
  }

  lemma SlashRead(s: seq<char>, i: nat, out: seq<char>, dotdot: nat)
    requires i < |s| && s[i] == '/' && Progress(s, i, out, dotdot)
    ensures Progress(s, i + 1, out, dotdot)
  {
    ReadSlash(s, i);
  }

  lemma DotRead(s: seq<char>, i: nat, out: seq<char>, dotdot: nat)
    requires i < |s| && s[i] == '.' && (i + 1 < |s| ==> s[i + 1] == '/') && Progress(s, i, out, dotdot)
    ensures Progress(s, i + 1, out, dotdot)
  {
    assert s[i..i + 1] == DOT;
    ReadComponent(s, i, i + 1);
  }

  lemma PassedOver(s: seq<char>, i: nat, out: seq<char>, dotdot: nat)
    requires CString(s) && i < |s| && (s[i] == '/' || (s[i] == '.' && IsSeparator(At(s, i + 1)))) && Progress(s, i, out, dotdot)
    ensures Progress(s, i + 1, out, dotdot)
  {
    if s[i] == '/' {
      SlashRead(s, i, out, dotdot);
    } else {
      DotRead(s, i, out, dotdot);
    }
  }

  lemma DotDotRead(s: seq<char>, i: nat, out: seq<char>, dotdot: nat)
    requires i + 2 <= |s| && s[i] == '.' && s[i + 1] == '.' && (i + 2 < |s| ==> s[i + 2] == '/')
    requires i == 0 || s[i - 1] == '/'
    requires |out| <= i + 2
    requires var st := Push(Rooted(s), ReadUpTo(s, i), DOTDOT);
             out == Printed(Rooted(s), st) && dotdot == Barrier(Rooted(s), st)
    ensures Progress(s, i + 2, out, dotdot)
  {
    assert s[i..i + 2] == DOTDOT;
    ReadComponent(s, i, i + 2);
  }

  /** One slash or one path element of the input. */
  method CleanElement(input: seq<char>, out: array<char>, inIndex: nat, outIndex: nat, dotdot: nat, rooted: bool)
    returns (fits: bool, i: nat, o: nat, barrier: nat)
    requires CString(input) && inIndex < |input| && inIndex < out.Length && rooted == Rooted(input)
    requires outIndex <= inIndex && Progress(input, inIndex, out[..outIndex], dotdot)
    modifies out
    ensures !fits ==> |input| >= out.Length
    ensures fits ==> inIndex < i < out.Length && o <= i && Progress(input, i, out[..o], barrier)
  {
    fits, i, o, barrier := true, inIndex, outIndex, dotdot;
    if input[i] == '/' || (input[i] == '.' && IsSeparator(At(input, i + 1))) {
      // Rules 1 and 2: separators are written with the components, and a '.' stays where it is.
      if i + 1 >= out.Length { return false, i, o, barrier; }
      PassedOver(input, i, out[..o], barrier);
      i := i + 1;
    } else if input[i] == '.' && At(input, i + 1) == '.' && IsSeparator(At(input, i + 2)) {
      if i + 2 >= out.Length { return false, i, o, barrier; }
      o, barrier := CleanDotDot(input, out, i, o, barrier, rooted);
      i := i + 2;
    } else {
      fits, i, o := CopyComponent(input, out, i, o, rooted);
    }
  }

  method CleanDotDot(input: seq<char>, out: array<char>, inIndex: nat, outIndex: nat, dotdot: nat, rooted: bool)
    returns (o: nat, barrier: nat)
    requires inIndex + 2 <= |input| && inIndex + 2 < out.Length && rooted == Rooted(input)
    requires input[inIndex] == '.' && input[inIndex + 1] == '.' && (inIndex + 2 < |input| ==> input[inIndex + 2] == '/')
    requires outIndex <= inIndex && Progress(input, inIndex, out[..outIndex], dotdot)
    modifies out
    ensures o <= inIndex + 2 && Progress(input, inIndex + 2, out[..o], barrier)
  {
    ReadCanonical(input, inIndex);
    SeparatorDue(input, inIndex);
    o, barrier := ParentDirectory(out, outIndex, dotdot, rooted, ReadUpTo(input, inIndex));
    DotDotRead(input, inIndex, out[..o], barrier);
  }

  /** Rules 3 to 5: cancel the component before '..', drop '..' at the root, keep it otherwise. */
  method ParentDirectory(out: array<char>, outIndex: nat, dotdot: nat, rooted: bool, ghost st: Stack)
    returns (o: nat, barrier: nat)
    requires Canonical(rooted, st)
    requires outIndex <= out.Length && out[..outIndex] == Printed(rooted, st)
    requires dotdot == Barrier(rooted, st)
    requires outIndex + |Separator(st)| + 2 <= out.Length
    modifies out
    ensures o <= outIndex + |Separator(st)| + 2 && out[..o] == Printed(rooted, Push(rooted, st, DOTDOT))
    ensures barrier == Barrier(rooted, Push(rooted, st, DOTDOT))
  {
    o, barrier := outIndex, dotdot;
    BarrierGuards(rooted, st);
    if o > dotdot {
      o := Backtrack(out, o, dotdot, rooted, st);
    } else if rooted {
    } else {
      PrintedUp(st.ups);
      PrintedEmpty(rooted, st);
      o := WriteDotDot(out, o);
      barrier := o;
    }
  }

  method WriteDotDot(out: array<char>, outIndex: nat) returns (o: nat)
    requires outIndex + (if outIndex > 0 then 3 else 2) <= out.Length
    modifies out
    ensures o <= out.Length && out[..o] == old(out[..outIndex]) + (if outIndex > 0 then "/" else "") + DOTDOT
  {
    o := outIndex;
    if o > 0 {
      out[o] := '/';
      o := o + 1;
    }
    out[o] := '.';
    o := o + 1;
    out[o] := '.';
    o := o + 1;
  }

  /** Where the last name's separator is: at the barrier, or the last '/' of the output. */
  lemma LastSeparator(rooted: bool, st: Stack)
    requires Canonical(rooted, st) && st.names != []
    ensures var t, p := Printed(rooted, st), Printed(rooted, Push(rooted, st, DOTDOT));
            && Barrier(rooted, st) <= |p| < |t| && p == t[..|p|]
            && (|p| > Barrier(rooted, st) ==> t[|p|] == '/')
            && forall k :: |p| < k < |t| ==> t[k] != '/'
  {
    var n := |st.names| - 1;
    var shorter, last := st.(names := st.names[..n]), st.names[n];
    assert st == shorter.(names := shorter.names + [last]);
    PrintedName(rooted, shorter, last);
    BarrierGuards(rooted, shorter);
    assert IsName(last);
    NameAtEnd(Printed(rooted, shorter), Separator(shorter), last);
  }

  lemma NameAtEnd(p: seq<char>, separator: seq<char>, c: Name)
    requires IsComponent(c) && (separator == "/" || separator == "")
    ensures var t := p + separator + c;
            && |p| < |t| && p == t[..|p|] && (separator == "/" ==> t[|p|] == '/')
            && forall k :: |p| < k < |t| ==> t[k] != '/'
  {
  }

  /** Drops the last name and the separator before it from the output. */
  method Backtrack(out: array<char>, outIndex: nat, dotdot: nat, rooted: bool, ghost st: Stack)
    returns (o: nat)
    requires Canonical(rooted, st) && st.names != []
    requires outIndex <= out.Length && out[..outIndex] == Printed(rooted, st)
    requires dotdot == Barrier(rooted, st) && outIndex > dotdot
    ensures o < outIndex && out[..o] == Printed(rooted, Push(rooted, st, DOTDOT))
  {
    LastSeparator(rooted, st);
    ghost var t, n := out[..outIndex], |Printed(rooted, Push(rooted, st, DOTDOT))|;
    assert forall k :: 0 <= k < outIndex ==> t[k] == out[k];
    o := outIndex - 1;
    while o > dotdot && out[o] != '/'
      invariant n <= o < outIndex && dotdot <= o
    {
      o := o - 1;
    }
    assert o == n && out[..o] == t[..o];
  }

  /** A component copied after the separator due is the output for the input read with it. */
  lemma PrintedComponent(s: seq<char>, i: nat, j: nat)
    requires i < j <= |s| && IsName(s[i..j])
    requires i == 0 || s[i - 1] == '/'
    ensures Printed(Rooted(s), ReadUpTo(s, j)) ==
            Printed(Rooted(s), ReadUpTo(s, i)) + Separator(ReadUpTo(s, i)) + s[i..j]
    ensures Barrier(Rooted(s), ReadUpTo(s, j)) == Barrier(Rooted(s), ReadUpTo(s, i))
  {
    ReadComponent(s, i, j);
    ReadCanonical(s, i);
    PrintedName(Rooted(s), ReadUpTo(s, i), s[i..j]);
  }

  /** Whether a separator is due can be read off the output index. */
  lemma SeparatorDue(s: seq<char>, i: nat)
    requires i <= |s|
    ensures |Separator(ReadUpTo(s, i))| == 1 <==>
            |Printed(Rooted(s), ReadUpTo(s, i))| != if Rooted(s) then 1 else 0
  {
    ReadCanonical(s, i);
    PrintedEmpty(Rooted(s), ReadUpTo(s, i));
  }

  /** Copies characters up to the next separator. */
  method CopyRun(input: seq<char>, out: array<char>, start: nat, outStart: nat, ghost prefix: seq<char>)
    returns (fits: bool, i: nat, o: nat)
    requires CString(input) && start <= |input| && start < out.Length
    requires outStart <= start && out[..outStart] == prefix
    modifies out
    ensures !fits ==> |input| >= out.Length
    ensures fits ==> start <= i <= |input| && i < out.Length && NoSlash(input[start..i])
    ensures fits ==> (i < |input| ==> input[i] == '/')
    ensures fits ==> o <= i && out[..o] == prefix + input[start..i]
  {
    i, o := start, outStart;
    assert input[start..start] == [];
    while !IsSeparator(At(input, i))
      invariant start <= i <= |input| && i < out.Length && o <= i
      invariant NoSlash(input[start..i])
      invariant out[..o] == prefix + input[start..i]
      decreases |input| - i
    {
      if i + 1 >= out.Length { return false, i, o; }
      assert input[start..i + 1] == input[start..i] + [input[i]];
      out[o] := input[i];
      o := o + 1;
      i := i + 1;
    }
    fits := true;
  }

  /** Copies a normal component, after a separator if one is due. */
  method CopyComponent(input: seq<char>, out: array<char>, start: nat, outStart: nat, rooted: bool)
    returns (fits: bool, i: nat, o: nat)
    requires CString(input) && start < |input| && start < out.Length && rooted == Rooted(input)
    requires RoomLeft(input, start, outStart) && input[start] != '/'
    requires !(input[start] == '.' && IsSeparator(At(input, start + 1)))
    requires !(input[start] == '.' && At(input, start + 1) == '.' && IsSeparator(At(input, start + 2)))
    requires out[..outStart] == Printed(rooted, ReadUpTo(input, start))
    modifies out
    ensures !fits ==> |input| >= out.Length
    ensures fits ==> start < i < out.Length && RoomLeft(input, i, o)
    ensures fits ==> out[..o] == Printed(rooted, ReadUpTo(input, i))
    ensures fits ==> Barrier(rooted, ReadUpTo(input, i)) == Barrier(rooted, ReadUpTo(input, start))
  {
    SeparatorDue(input, start);
    ghost var prefix := Printed(rooted, ReadUpTo(input, start)) + Separator(ReadUpTo(input, start));
    i, o := start, outStart;
    if (rooted && o != 1) || (!rooted && o != 0) {
      out[o] := '/';
      o := o + 1;
    }
    fits, i, o := CopyRun(input, out, start, o, prefix);
    if !fits { return; }
    ProperName(input, start, i);
    PrintedComponent(input, start, i);
  }

  /** What is copied is a name when neither dot rule applies. */
  lemma ProperName(s: seq<char>, i: nat, j: nat)
    requires i <= j <= |s| && NoSlash(s[i..j]) && (j < |s| ==> s[j] == '/') && i < |s| && s[i] != '/'
    requires !(s[i] == '.' && IsSeparator(At(s, i + 1)))
    requires !(s[i] == '.' && At(s, i + 1) == '.' && IsSeparator(At(s, i + 2)))
    ensures i < j && IsName(s[i..j])
  {
    var c := s[i..j];
    assert i < j ==> c[0] == s[i];
    assert j == i + 2 ==> c[1] == s[i + 1];
  }
}
