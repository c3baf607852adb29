/**
 * Messages between JavaScript and Dart.
 *
 * `serialize` turns an object graph, which may share objects and have cycles,
 * into nested arrays; an object met again becomes a reference to its number.
 * `deserialize` builds the arrays and objects anew, but does not know references.
 * So the round trip works exactly for the graphs in which no object is reached
 * on two ways, and then gives back the same tree with `undefined` turned into
 * `null`, provided that no property is called `__proto__`, for assigning that one
 * does not add a property.
 */
module PortMessage {
  import opened Basics

  type Addr = nat

  datatype Value =
    | Undefined
    | Null
    | Boolean(b: bool)
    | Number(n: real)
    | Text(s: string)
    | LocalPort(id: nat)
    | DartPort(isolate: int, port: int)
    | Ref(a: Addr)

  /** An array, or any other object with its own property names. */
  datatype Object = Array(items: seq<Value>) | Record(keys: seq<string>, items: seq<Value>)

  type Heap = map<Addr, Object>

  predicate Known(h: Heap, v: Value) {
    v.Ref? ==> v.a in h
  }

  predicate AllKnown(h: Heap, vs: seq<Value>) {
    forall i :: 0 <= i < |vs| ==> Known(h, vs[i])
  }

  ghost predicate ObjectOk(h: Heap, o: Object) {
    AllKnown(h, o.items) && (o.Record? ==> |o.keys| == |o.items| && Distinct(o.keys))
  }

  ghost predicate WellFormed(h: Heap) {
    forall a :: a in h ==> ObjectOk(h, h[a])
  }

  // ---------- Serializing ----------

  datatype Message =
    | Plain(value: Value)
    | ListMessage(id: nat, values: seq<Message>)
    | MapMessage(id: nat, keys: seq<string>, values: seq<Message>)
    | NativePort(port: nat)
    | IsolatePort(isolate: int, isolatePort: int)
    | Reference(id: nat)

  function IndexOf(s: seq<Addr>, a: Addr): (i: nat)
    requires a in s
    ensures i < |s| && s[i] == a && a !in s[..i]
  {
    if s[0] == a then 0
    else
      assert forall j :: 0 < j <= IndexOf(s[1..], a) ==> s[j] == s[1..][j - 1];
      1 + IndexOf(s[1..], a)
  }

  ghost function Unvisited(h: Heap, visited: seq<Addr>): set<Addr> {
    h.Keys - set a | a in visited
  }

  lemma VisitedGrows(h: Heap, visited: seq<Addr>, visited': seq<Addr>)
    requires visited <= visited'
    ensures |Unvisited(h, visited')| <= |Unvisited(h, visited)|
  {
    Fewer(Unvisited(h, visited'), Unvisited(h, visited));
  }

  lemma VisitedOne(h: Heap, visited: seq<Addr>, a: Addr)
    requires a in h && a !in visited
    ensures |Unvisited(h, visited + [a])| < |Unvisited(h, visited)|
  {
    assert Unvisited(h, visited + [a]) == Unvisited(h, visited) - {a};
  }

  lemma Fewer(a: set<Addr>, b: set<Addr>)
    requires a <= b
    ensures |a| <= |b|
  {
    assert b == a + (b - a);
  }

  /** A value's message and the objects visited after it; the position of an object is its number. */
  function Serialized(h: Heap, v: Value, visited: seq<Addr>): (r: (Message, seq<Addr>))
    requires WellFormed(h) && Known(h, v)
    ensures visited <= r.1
    decreases |Unvisited(h, visited)|, 0
  {
    match v
    case Undefined => (Plain(Null), visited)
    case LocalPort(id) => (NativePort(id), visited)
    case DartPort(isolate, port) => (IsolatePort(isolate, port), visited)
    case Ref(a) =>
      if a in visited then (Reference(IndexOf(visited, a)), visited)
      else
        VisitedOne(h, visited, a);
        assert ObjectOk(h, h[a]);
        var (ms, visited') := SerializedAll(h, h[a].items, visited + [a]);
        (Wrapped(h[a], |visited|, ms), visited')
    case _ => (Plain(v), visited)
  }

  function Wrapped(o: Object, id: nat, ms: seq<Message>): Message {
    match o
    case Array(_) => ListMessage(id, ms)
    case Record(keys, _) => MapMessage(id, keys, ms)
  }

  function SerializedAll(h: Heap, vs: seq<Value>, visited: seq<Addr>): (r: (seq<Message>, seq<Addr>))
    requires WellFormed(h) && AllKnown(h, vs)
    ensures |r.0| == |vs| && visited <= r.1
    decreases |Unvisited(h, visited)|, |vs|
  {
    if vs == [] then ([], visited)
    else
      var (m, visited1) := Serialized(h, vs[0], visited);
      VisitedGrows(h, visited, visited1);
      var (ms, visited2) := SerializedAll(h, vs[1..], visited1);
      ([m] + ms, visited2)
  }

  // ---------- Numbers and references ----------

  /** The numbers from `a` on, up to `b`. */
  predicate Dense(s: seq<nat>, a: nat, b: nat) {
    a + |s| == b && forall i :: 0 <= i < |s| ==> s[i] == a + i
  }

  lemma DenseConcat(s: seq<nat>, t: seq<nat>, a: nat, b: nat, c: nat)
    requires Dense(s, a, b) && Dense(t, b, c)
    ensures Dense(s + t, a, c)
  {
  }

  /** The numbers in a message, outermost first. */
  function Ids(m: Message): seq<nat> {
    match m
    case ListMessage(id, values) => [id] + IdsAll(values)
    case MapMessage(id, _, values) => [id] + IdsAll(values)
    case _ => []
  }

  function IdsAll(ms: seq<Message>): seq<nat> {
    if ms == [] then [] else Ids(ms[0]) + IdsAll(ms[1..])
  }

  /** Every reference is to one of the `n` objects numbered before, or to one numbered in this message so far. */
  predicate RefersBack(m: Message, n: nat) {
    match m
    case Reference(id) => id < n
    case ListMessage(_, values) => RefersBackAll(values, n + 1)
    case MapMessage(_, _, values) => RefersBackAll(values, n + 1)
    case _ => true
  }

  predicate RefersBackAll(ms: seq<Message>, n: nat) {
    ms != [] ==> RefersBack(ms[0], n) && RefersBackAll(ms[1..], n + |Ids(ms[0])|)
  }

  lemma DistinctSnoc(s: seq<Addr>, a: Addr)
    requires Distinct(s) && a !in s
    ensures Distinct(s + [a])
  {
  }

  /** The numbers are those from `n` on, and references are to numbers given before. */
  ghost predicate Numbered(m: Message, n: nat, n': nat) {
    Dense(Ids(m), n, n') && RefersBack(m, n)
  }

  ghost predicate AllNumbered(ms: seq<Message>, n: nat, n': nat) {
    Dense(IdsAll(ms), n, n') && RefersBackAll(ms, n)
  }

  lemma NumberedStep(m: Message, ms: seq<Message>, n: nat, n1: nat, n2: nat)
    requires Numbered(m, n, n1) && AllNumbered(ms, n1, n2)
    ensures AllNumbered([m] + ms, n, n2)
  {
    DenseConcat(Ids(m), IdsAll(ms), n, n1, n2);
    ConsMessages(m, ms, n);
  }

  lemma NumberedObject(o: Object, ms: seq<Message>, n: nat, n': nat)
    requires AllNumbered(ms, n + 1, n')
    ensures Numbered(Wrapped(o, n, ms), n, n')
  {
    DenseConcat([n], IdsAll(ms), n, n + 1, n');
  }

  /** Objects are numbered densely, outermost first, each once. */
  lemma {:induction false} Numbering(h: Heap, v: Value, visited: seq<Addr>)
    requires WellFormed(h) && Known(h, v) && Distinct(visited)
    ensures var (m, visited') := Serialized(h, v, visited);
            Distinct(visited') && Numbered(m, |visited|, |visited'|)
    decreases |Unvisited(h, visited)|, 1
  {
    if v.Ref? && v.a !in visited {
      NumberingNew(h, v.a, visited);
    } else {
      NumberedLeaf(Serialized(h, v, visited).0, |visited|);
    }
  }

  lemma {:induction false} NumberingNew(h: Heap, a: Addr, visited: seq<Addr>)
    requires WellFormed(h) && a in h && a !in visited && Distinct(visited)
    ensures var (m, visited') := Serialized(h, Ref(a), visited);
            Distinct(visited') && Numbered(m, |visited|, |visited'|)
    decreases |Unvisited(h, visited)|, 0
  {
    VisitedOne(h, visited, a);
    assert ObjectOk(h, h[a]);
    DistinctSnoc(visited, a);
    NumberingAll(h, h[a].items, visited + [a]);
    var (ms, visited') := SerializedAll(h, h[a].items, visited + [a]);
    NumberedObject(h[a], ms, |visited|, |visited'|);
    SerializedNew(h, a, visited);
  }

  lemma SerializedNew(h: Heap, a: Addr, visited: seq<Addr>)
    requires WellFormed(h) && a in h && a !in visited
    ensures AllKnown(h, h[a].items)
    ensures var (ms, visited') := SerializedAll(h, h[a].items, visited + [a]);
            Serialized(h, Ref(a), visited) == (Wrapped(h[a], |visited|, ms), visited')
  {
    assert ObjectOk(h, h[a]);
  }

  lemma NumberedLeaf(m: Message, n: nat)
    requires m.Plain? || m.NativePort? || m.IsolatePort? || (m.Reference? && m.id < n)
    ensures Numbered(m, n, n)
  {
  }

  lemma {:induction false} NumberingAll(h: Heap, vs: seq<Value>, visited: seq<Addr>)
    requires WellFormed(h) && AllKnown(h, vs) && Distinct(visited)
    ensures var (ms, visited') := SerializedAll(h, vs, visited);
            Distinct(visited') && AllNumbered(ms, |visited|, |visited'|)
    decreases |Unvisited(h, visited)|, |vs| + 1
  {
    if vs != [] {
      var (m, visited1) := Serialized(h, vs[0], visited);
      Numbering(h, vs[0], visited);
      VisitedGrows(h, visited, visited1);
      NumberingAll(h, vs[1..], visited1);
      var (ms, visited2) := SerializedAll(h, vs[1..], visited1);
      NumberedStep(m, ms, |visited|, |visited1|, |visited2|);
    }
  }

  lemma ConsMessages(m: Message, ms: seq<Message>, n: nat)
    ensures IdsAll([m] + ms) == Ids(m) + IdsAll(ms)
    ensures RefersBackAll([m] + ms, n) <==> RefersBack(m, n) && RefersBackAll(ms, n + |Ids(m)|)
    ensures NoReferences([m] + ms) <==> NoReference(m) && NoReferences(ms)
  {
    assert ([m] + ms)[1..] == ms;
  }

  // ---------- Ways through a graph ----------

  type Way = seq<nat>

  /** What is at the end of a way from a value. */
  function At(h: Heap, v: Value, way: Way): Option<Value>
    decreases |way|
  {
    if way == [] then Some(v)
    else if v.Ref? && v.a in h && way[0] < |h[v.a].items| then At(h, h[v.a].items[way[0]], way[1..])
    else None
  }

  ghost predicate Reaches(h: Heap, v: Value, x: Addr) {
    exists way :: At(h, v, way) == Some(Ref(x))
  }

  /** No object is reached on two ways; in particular there is no cycle. */
  ghost predicate Unshared(h: Heap, v: Value) {
    forall p, q, x :: At(h, v, p) == Some(Ref(x)) && At(h, v, q) == Some(Ref(x)) ==> p == q
  }

  ghost predicate UnsharedAll(h: Heap, vs: seq<Value>) {
    forall i, j, p, q, x :: 0 <= i < |vs| && 0 <= j < |vs| && At(h, vs[i], p) == Some(Ref(x)) && At(h, vs[j], q) == Some(Ref(x)) ==>
      i == j && p == q
  }

  ghost predicate ReachesAny(h: Heap, vs: seq<Value>, x: Addr) {
    exists i :: 0 <= i < |vs| && Reaches(h, vs[i], x)
  }

  predicate NoReference(m: Message) {
    match m
    case Reference(_) => false
    case ListMessage(_, values) => NoReferences(values)
    case MapMessage(_, _, values) => NoReferences(values)
    case _ => true
  }

  predicate NoReferences(ms: seq<Message>) {
    ms != [] ==> NoReference(ms[0]) && NoReferences(ms[1..])
  }

  lemma AtNext(h: Heap, a: Addr, i: nat, way: Way)
    requires a in h && i < |h[a].items|
    ensures At(h, Ref(a), [i] + way) == At(h, h[a].items[i], way)
  {
    assert ([i] + way)[1..] == way;
  }

  /** A way from an object either stays there or goes through one of its items. */
  lemma AtFirst(h: Heap, a: Addr, way: Way)
    requires At(h, Ref(a), way).Some? && way != []
    ensures a in h && way[0] < |h[a].items| && At(h, Ref(a), way) == At(h, h[a].items[way[0]], way[1..])
    ensures way == [way[0]] + way[1..]
  {
  }

  lemma ReachesNext(h: Heap, a: Addr, x: Addr)
    requires a in h
    ensures Reaches(h, Ref(a), x) <==> x == a || ReachesAny(h, h[a].items, x)
  {
    if Reaches(h, Ref(a), x) {
      var way :| At(h, Ref(a), way) == Some(Ref(x));
      if way != [] {
        AtFirst(h, a, way);
        assert Reaches(h, h[a].items[way[0]], x);
      }
    }
    if x == a {
      assert At(h, Ref(a), []) == Some(Ref(a));
    } else if ReachesAny(h, h[a].items, x) {
      var i :| 0 <= i < |h[a].items| && Reaches(h, h[a].items[i], x);
      var way :| At(h, h[a].items[i], way) == Some(Ref(x));
      AtNext(h, a, i, way);
    }
  }

  lemma ReachesTail(h: Heap, vs: seq<Value>, x: Addr)
    requires vs != []
    ensures ReachesAny(h, vs, x) <==> Reaches(h, vs[0], x) || ReachesAny(h, vs[1..], x)
  {
    if ReachesAny(h, vs, x) {
      var i :| 0 <= i < |vs| && Reaches(h, vs[i], x);
      assert i > 0 ==> vs[1..][i - 1] == vs[i];
    }
    if ReachesAny(h, vs[1..], x) {
      var i :| 0 <= i < |vs[1..]| && Reaches(h, vs[1..][i], x);
      assert vs[i + 1] == vs[1..][i];
    }
  }

  /** An object is reached on one way only: not from below itself, and its items share nothing. */
  lemma UnsharedNext(h: Heap, a: Addr)
    requires a in h
    ensures Unshared(h, Ref(a)) <==> UnsharedAll(h, h[a].items) && !ReachesAny(h, h[a].items, a)
  {
    if Unshared(h, Ref(a)) {
      UnsharedDown(h, a);
    }
    if UnsharedAll(h, h[a].items) && !ReachesAny(h, h[a].items, a) {
      UnsharedUp(h, a);
    }
  }

  lemma UnsharedDown(h: Heap, a: Addr)
    requires a in h && Unshared(h, Ref(a))
    ensures UnsharedAll(h, h[a].items) && !ReachesAny(h, h[a].items, a)
  {
    var items := h[a].items;
    forall i, j, p, q, x | 0 <= i < |items| && 0 <= j < |items| && At(h, items[i], p) == Some(Ref(x)) && At(h, items[j], q) == Some(Ref(x))
      ensures i == j && p == q
    {
      AtNext(h, a, i, p);
      AtNext(h, a, j, q);
      assert [i] + p == [j] + q;
      assert p == ([i] + p)[1..] == ([j] + q)[1..] == q;
    }
    forall i, way | 0 <= i < |items|
      ensures At(h, items[i], way) != Some(Ref(a))
    {
      AtNext(h, a, i, way);
      assert At(h, Ref(a), []) == Some(Ref(a)) && [i] + way != [];
    }
  }

  lemma UnsharedUp(h: Heap, a: Addr)
    requires a in h && UnsharedAll(h, h[a].items) && !ReachesAny(h, h[a].items, a)
    ensures Unshared(h, Ref(a))
  {
    forall p, q, x | At(h, Ref(a), p) == Some(Ref(x)) && At(h, Ref(a), q) == Some(Ref(x))
      ensures p == q
    {
      if p != [] {
        AtFirst(h, a, p);
        assert Reaches(h, h[a].items[p[0]], x);
      }
      if q != [] {
        AtFirst(h, a, q);
        assert Reaches(h, h[a].items[q[0]], x);
      }
    }
  }

  /** Items share nothing when the first shares nothing with the rest. */
  lemma UnsharedTail(h: Heap, vs: seq<Value>)
    requires vs != []
    ensures UnsharedAll(h, vs) <==>
            && Unshared(h, vs[0]) && UnsharedAll(h, vs[1..])
            && (forall x :: Reaches(h, vs[0], x) ==> !ReachesAny(h, vs[1..], x))
  {
    if UnsharedAll(h, vs) {
      UnsharedSplits(h, vs);
    }
    if Unshared(h, vs[0]) && UnsharedAll(h, vs[1..]) && (forall x :: Reaches(h, vs[0], x) ==> !ReachesAny(h, vs[1..], x)) {
      UnsharedJoins(h, vs);
    }
  }

  lemma UnsharedSplits(h: Heap, vs: seq<Value>)
    requires vs != [] && UnsharedAll(h, vs)
    ensures Unshared(h, vs[0]) && UnsharedAll(h, vs[1..])
    ensures forall x :: Reaches(h, vs[0], x) ==> !ReachesAny(h, vs[1..], x)
  {
    var rest := vs[1..];
    forall i, j, p, q, x | 0 <= i < |rest| && 0 <= j < |rest| && At(h, rest[i], p) == Some(Ref(x)) && At(h, rest[j], q) == Some(Ref(x))
      ensures i == j && p == q
    {
      assert rest[i] == vs[i + 1] && rest[j] == vs[j + 1];
    }
    forall x, i, p, q | 0 <= i < |rest| && At(h, vs[0], p) == Some(Ref(x))
      ensures At(h, rest[i], q) != Some(Ref(x))
    {
      assert rest[i] == vs[i + 1];
    }
  }

  lemma UnsharedJoins(h: Heap, vs: seq<Value>)
    requires vs != [] && Unshared(h, vs[0]) && UnsharedAll(h, vs[1..])
    requires forall x :: Reaches(h, vs[0], x) ==> !ReachesAny(h, vs[1..], x)
    ensures UnsharedAll(h, vs)
  {
    var rest := vs[1..];
    forall i, j, p, q, x | 0 <= i < |vs| && 0 <= j < |vs| && At(h, vs[i], p) == Some(Ref(x)) && At(h, vs[j], q) == Some(Ref(x))
      ensures i == j && p == q
    {
      assert Reaches(h, vs[i], x) && Reaches(h, vs[j], x);
      assert i > 0 ==> vs[i] == rest[i - 1];
      assert j > 0 ==> vs[j] == rest[j - 1];
    }
  }

  // ---------- When a reference is needed ----------

  ghost predicate Fresh(h: Heap, v: Value, visited: seq<Addr>) {
    forall x :: x in visited ==> !Reaches(h, v, x)
  }

  ghost predicate AllFresh(h: Heap, vs: seq<Value>, visited: seq<Addr>) {
    forall x :: x in visited ==> !ReachesAny(h, vs, x)
  }

  /** The objects visited on the way are those that were reached. */
  ghost predicate Gained(h: Heap, v: Value, visited: seq<Addr>, visited': seq<Addr>) {
    forall x :: x in visited' <==> x in visited || Reaches(h, v, x)
  }

  ghost predicate AllGained(h: Heap, vs: seq<Value>, visited: seq<Addr>, visited': seq<Addr>) {
    forall x :: x in visited' <==> x in visited || ReachesAny(h, vs, x)
  }

  lemma LeafReachesNothing(h: Heap, v: Value)
    requires !v.Ref?
    ensures Unshared(h, v) && forall x :: !Reaches(h, v, x)
  {
  }

  /** No reference is written exactly when nothing is met twice. */
  lemma {:induction false} ReferenceIffMetAgain(h: Heap, v: Value, visited: seq<Addr>)
    requires WellFormed(h) && Known(h, v)
    ensures var (m, visited') := Serialized(h, v, visited);
            && (NoReference(m) <==> Unshared(h, v) && Fresh(h, v, visited))
            && (NoReference(m) ==> Gained(h, v, visited, visited'))
    decreases |Unvisited(h, visited)|, 0
  {
    if !v.Ref? {
      LeafReachesNothing(h, v);
    } else if v.a in visited {
      ReachesNext(h, v.a, v.a);
    } else {
      VisitedOne(h, visited, v.a);
      assert ObjectOk(h, h[v.a]);
      ReferencesIffMetAgain(h, h[v.a].items, visited + [v.a]);
      FreshNext(h, v.a, visited);
      GainedNext(h, v.a, visited, Serialized(h, v, visited).1);
    }
  }

  /** An object is unshared and fresh when its items are, it being visited before them. */
  lemma FreshNext(h: Heap, a: Addr, visited: seq<Addr>)
    requires a in h && a !in visited
    ensures Unshared(h, Ref(a)) && Fresh(h, Ref(a), visited) <==>
            UnsharedAll(h, h[a].items) && AllFresh(h, h[a].items, visited + [a])
  {
    UnsharedNext(h, a);
    forall x
      ensures Reaches(h, Ref(a), x) <==> x == a || ReachesAny(h, h[a].items, x)
    {
      ReachesNext(h, a, x);
    }
    assert a in visited + [a];
    assert forall x :: x in visited ==> x in visited + [a];
  }

  lemma GainedNext(h: Heap, a: Addr, visited: seq<Addr>, visited': seq<Addr>)
    requires a in h
    ensures AllGained(h, h[a].items, visited + [a], visited') ==> Gained(h, Ref(a), visited, visited')
  {
    forall x
      ensures Reaches(h, Ref(a), x) <==> x == a || ReachesAny(h, h[a].items, x)
    {
      ReachesNext(h, a, x);
    }
  }

  lemma {:induction false} ReferencesIffMetAgain(h: Heap, vs: seq<Value>, visited: seq<Addr>)
    requires WellFormed(h) && AllKnown(h, vs)
    ensures var (ms, visited') := SerializedAll(h, vs, visited);
            && (NoReferences(ms) <==> UnsharedAll(h, vs) && AllFresh(h, vs, visited))
            && (NoReferences(ms) ==> AllGained(h, vs, visited, visited'))
    decreases |Unvisited(h, visited)|, |vs|
  {
    if vs != [] {
      var (m, visited1) := Serialized(h, vs[0], visited);
      ReferenceIffMetAgain(h, vs[0], visited);
      VisitedGrows(h, visited, visited1);
      ReferencesIffMetAgain(h, vs[1..], visited1);
      var (ms, visited2) := SerializedAll(h, vs[1..], visited1);
      assert SerializedAll(h, vs, visited) == ([m] + ms, visited2);
      ConsMessages(m, ms, 0);
      UnsharedTail(h, vs);
      forall x
        ensures ReachesAny(h, vs, x) <==> Reaches(h, vs[0], x) || ReachesAny(h, vs[1..], x)
      {
        ReachesTail(h, vs, x);
      }
    }
  }

  // ---------- What numbers mean ----------

  function Parts(m: Message): seq<Message> {
    match m
    case ListMessage(_, values) => values
    case MapMessage(_, _, values) => values
    case _ => []
  }

  function MessageAt(m: Message, way: Way): Option<Message>
    decreases |way|
  {
    if way == [] then Some(m)
    else if way[0] < |Parts(m)| then MessageAt(Parts(m)[way[0]], way[1..])
    else None
  }

  predicate HasId(m: Message) {
    m.ListMessage? || m.MapMessage? || m.Reference?
  }

  /** At every place of a message the number, written or referred to, is that of the object at that place. */
  lemma {:induction false} NumberMeansObject(h: Heap, v: Value, visited: seq<Addr>, way: Way, x: Addr)
    requires WellFormed(h) && Known(h, v) && At(h, v, way) == Some(Ref(x))
    ensures var (m, visited') := Serialized(h, v, visited);
            var part := MessageAt(m, way);
            part.Some? ==> HasId(part.value) && part.value.id < |visited'| && visited'[part.value.id] == x
    decreases |way|
  {
    if way != [] && v.a !in visited {
      AtFirst(h, v.a, way);
      assert ObjectOk(h, h[v.a]);
      NumbersMeanObjects(h, h[v.a].items, visited + [v.a], way[0], way[1..], x);
    }
  }

  lemma {:induction false} NumbersMeanObjects(h: Heap, vs: seq<Value>, visited: seq<Addr>, i: nat, way: Way, x: Addr)
    requires WellFormed(h) && AllKnown(h, vs) && i < |vs| && At(h, vs[i], way) == Some(Ref(x))
    ensures var (ms, visited') := SerializedAll(h, vs, visited);
            var part := MessageAt(ms[i], way);
            part.Some? ==> HasId(part.value) && part.value.id < |visited'| && visited'[part.value.id] == x
    decreases |way| + 1, i
  {
    var (m, visited1) := Serialized(h, vs[0], visited);
    if i == 0 {
      NumberMeansObject(h, vs[0], visited, way, x);
    } else {
      NumbersMeanObjects(h, vs[1..], visited1, i - 1, way, x);
    }
  }

  // ---------- Deserializing ----------

  datatype Tree = Leaf(value: Value) | TreeList(items: seq<Tree>) | TreeMap(fields: seq<Field>)
  datatype Field = Field(key: string, value: Tree)

  const PROTO: string := "__proto__"

  predicate HasKey(fields: seq<Field>, key: string) {
    exists i :: 0 <= i < |fields| && fields[i].key == key
  }

  /** Assigning a property: a new one comes last, and `__proto__` does not become one. */
  function Put(fields: seq<Field>, key: string, value: Tree): seq<Field> {
    if key == PROTO then fields
    else if fields == [] then [Field(key, value)]
    else if fields[0].key == key then [Field(key, value)] + fields[1..]
    else [fields[0]] + Put(fields[1..], key, value)
  }

  function PutAll(fields: seq<Field>, keys: seq<string>, values: seq<Tree>): seq<Field>
    decreases |keys|
  {
    if keys == [] || values == [] then fields
    else PutAll(Put(fields, keys[0], values[0]), keys[1..], values[1..])
  }

  /** The value of a message; a reference cannot be read. */
  function Deserialized(m: Message): Option<Tree> {
    match m
    case Plain(v) => Some(Leaf(v))
    case NativePort(port) => Some(Leaf(LocalPort(port)))
    case IsolatePort(isolate, port) => Some(Leaf(DartPort(isolate, port)))
    case Reference(_) => None
    case ListMessage(_, values) =>
      (match DeserializedAll(values)
       case None => None
       case Some(ts) => Some(TreeList(ts)))
    case MapMessage(_, keys, values) =>
      match DeserializedAll(values)
      case None => None
      case Some(ts) => Some(TreeMap(PutAll([], keys, ts)))
  }

  function DeserializedAll(ms: seq<Message>): (r: Option<seq<Tree>>)
    ensures r.Some? ==> |r.value| == |ms|
  {
    if ms == [] then Some([])
    else
      match Deserialized(ms[0])
      case None => None
      case Some(t) =>
        match DeserializedAll(ms[1..])
        case None => None
        case Some(ts) => Some([t] + ts)
  }

  lemma {:induction false} ReadableIffNoReference(m: Message)
    ensures Deserialized(m).Some? <==> NoReference(m)
    decreases m, 0
  {
    match m
    case ListMessage(_, values) => ReadableIffNoReferences(values);
    case MapMessage(_, _, values) => ReadableIffNoReferences(values);
    case _ =>
  }

  lemma {:induction false} ReadableIffNoReferences(ms: seq<Message>)
    ensures DeserializedAll(ms).Some? <==> NoReferences(ms)
    decreases ms, 1
  {
    if ms != [] {
      ReadableIffNoReference(ms[0]);
      ReadableIffNoReferences(ms[1..]);
    }
  }

  // ---------- The same tree ----------

  function Nulled(v: Value): Value {
    if v.Undefined? then Null else v
  }

  /** The tree says what the graph says, with `undefined` turned into `null`. */
  ghost predicate Represents(h: Heap, v: Value, t: Tree)
    decreases t
  {
    match t
    case Leaf(u) => !v.Ref? && u == Nulled(v)
    case TreeList(ts) =>
      && v.Ref? && v.a in h && h[v.a].Array? && |ts| == |h[v.a].items|
      && forall i :: 0 <= i < |ts| ==> Represents(h, h[v.a].items[i], ts[i])
    case TreeMap(fields) =>
      && v.Ref? && v.a in h && h[v.a].Record? && |fields| == |h[v.a].keys| == |h[v.a].items|
      && forall i :: 0 <= i < |fields| ==> fields[i].key == h[v.a].keys[i] && Represents(h, h[v.a].items[i], fields[i].value)
  }

  ghost predicate AllRepresent(h: Heap, vs: seq<Value>, ts: seq<Tree>) {
    |ts| == |vs| && forall i :: 0 <= i < |vs| ==> Represents(h, vs[i], ts[i])
  }

  /** A graph has one tree at most. */
  lemma {:induction false} RepresentsOne(h: Heap, v: Value, t: Tree, t': Tree)
    requires Represents(h, v, t) && Represents(h, v, t')
    ensures t == t'
    decreases t
  {
    match t
    case Leaf(_) =>
    case TreeList(ts) =>
      forall i | 0 <= i < |ts|
        ensures ts[i] == t'.items[i]
      {
        RepresentsOne(h, h[v.a].items[i], ts[i], t'.items[i]);
      }
    case TreeMap(fields) =>
      forall i | 0 <= i < |fields|
        ensures fields[i] == t'.fields[i]
      {
        RepresentsOne(h, h[v.a].items[i], fields[i].value, t'.fields[i].value);
      }
  }

  /** No property is called `__proto__`. */
  predicate Tame(h: Heap, a: Addr) {
    a in h && h[a].Record? ==> PROTO !in h[a].keys
  }

  ghost predicate ProtoFree(h: Heap, v: Value) {
    forall x :: Reaches(h, v, x) ==> Tame(h, x)
  }

  ghost predicate AllProtoFree(h: Heap, vs: seq<Value>) {
    forall x :: ReachesAny(h, vs, x) ==> Tame(h, x)
  }

  function Zip(keys: seq<string>, ts: seq<Tree>): (r: seq<Field>)
    requires |keys| == |ts|
    ensures |r| == |keys| && forall i :: 0 <= i < |r| ==> r[i] == Field(keys[i], ts[i])
  {
    if keys == [] then [] else [Field(keys[0], ts[0])] + Zip(keys[1..], ts[1..])
  }

  lemma {:induction false} PutNew(fields: seq<Field>, key: string, value: Tree)
    requires key != PROTO && !HasKey(fields, key)
    ensures Put(fields, key, value) == fields + [Field(key, value)]
  {
    if fields != [] {
      assert forall i :: 0 <= i < |fields[1..]| ==> fields[1..][i] == fields[i + 1];
      PutNew(fields[1..], key, value);
    }
  }

  lemma {:induction false} PutLength(fields: seq<Field>, key: string, value: Tree)
    ensures |Put(fields, key, value)| <= |fields| + 1
  {
    if fields != [] {
      PutLength(fields[1..], key, value);
    }
  }

  lemma {:induction false} PutAllLength(fields: seq<Field>, keys: seq<string>, ts: seq<Tree>)
    requires |keys| == |ts|
    ensures |PutAll(fields, keys, ts)| <= |fields| + |keys|
    ensures PROTO in keys ==> |PutAll(fields, keys, ts)| < |fields| + |keys|
    decreases |keys|
  {
    if keys != [] {
      PutLength(fields, keys[0], ts[0]);
      PutAllLength(Put(fields, keys[0], ts[0]), keys[1..], ts[1..]);
    }
  }

  lemma {:induction false} PutAllNew(fields: seq<Field>, keys: seq<string>, ts: seq<Tree>)
    requires |keys| == |ts| && Distinct(keys) && PROTO !in keys
    requires forall i :: 0 <= i < |keys| ==> !HasKey(fields, keys[i])
    ensures PutAll(fields, keys, ts) == fields + Zip(keys, ts)
    decreases |keys|
  {
    if keys != [] {
      PutNew(fields, keys[0], ts[0]);
      var next := fields + [Field(keys[0], ts[0])];
      forall i | 0 <= i < |keys[1..]|
        ensures !HasKey(next, keys[1..][i])
      {
        assert keys[1..][i] == keys[i + 1];
        assert !HasKey(fields, keys[i + 1]);
      }
      PutAllNew(next, keys[1..], ts[1..]);
      MoveOver(fields, Field(keys[0], ts[0]), Zip(keys[1..], ts[1..]));
    }
  }

  lemma MoveOver(a: seq<Field>, x: Field, b: seq<Field>)
    ensures a + [x] + b == a + ([x] + b)
  {
  }

  /** An object read back is the object exactly when its items are theirs and nothing was lost. */
  lemma ObjectRepresents(h: Heap, a: Addr, id: nat, ms: seq<Message>, ts: seq<Tree>)
    requires a in h && ObjectOk(h, h[a]) && DeserializedAll(ms) == Some(ts) && |ms| == |h[a].items|
    ensures var t := Deserialized(Wrapped(h[a], id, ms));
            t.Some? && (Represents(h, Ref(a), t.value) <==> AllRepresent(h, h[a].items, ts) && Tame(h, a))
  {
    if h[a].Record? {
      PutAllLength([], h[a].keys, ts);
      if Tame(h, a) {
        PutAllNew([], h[a].keys, ts);
        assert [] + Zip(h[a].keys, ts) == Zip(h[a].keys, ts);
      }
    }
  }

  lemma ProtoFreeNext(h: Heap, a: Addr)
    requires a in h
    ensures ProtoFree(h, Ref(a)) <==> Tame(h, a) && AllProtoFree(h, h[a].items)
  {
    forall x
      ensures Reaches(h, Ref(a), x) <==> x == a || ReachesAny(h, h[a].items, x)
    {
      ReachesNext(h, a, x);
    }
  }

  lemma ProtoFreeTail(h: Heap, vs: seq<Value>)
    requires vs != []
    ensures AllProtoFree(h, vs) <==> ProtoFree(h, vs[0]) && AllProtoFree(h, vs[1..])
  {
    forall x
      ensures ReachesAny(h, vs, x) <==> Reaches(h, vs[0], x) || ReachesAny(h, vs[1..], x)
    {
      ReachesTail(h, vs, x);
    }
  }

  /** What is read back is the graph's tree exactly when no property is called `__proto__`. */
  lemma {:induction false} ReadsBack(h: Heap, v: Value, visited: seq<Addr>)
    requires WellFormed(h) && Known(h, v)
    ensures var t := Deserialized(Serialized(h, v, visited).0);
            t.Some? ==> (Represents(h, v, t.value) <==> ProtoFree(h, v))
    decreases |Unvisited(h, visited)|, 0
  {
    if !v.Ref? {
      LeafReachesNothing(h, v);
    } else if v.a !in visited {
      VisitedOne(h, visited, v.a);
      assert ObjectOk(h, h[v.a]);
      AllReadBack(h, h[v.a].items, visited + [v.a]);
      ObjectReadsBack(h, v.a, |visited|, SerializedAll(h, h[v.a].items, visited + [v.a]).0);
    }
  }

  lemma ObjectReadsBack(h: Heap, a: Addr, id: nat, ms: seq<Message>)
    requires a in h && ObjectOk(h, h[a]) && |ms| == |h[a].items|
    requires DeserializedAll(ms).Some? ==> (AllRepresent(h, h[a].items, DeserializedAll(ms).value) <==> AllProtoFree(h, h[a].items))
    ensures var t := Deserialized(Wrapped(h[a], id, ms));
            t.Some? ==> (Represents(h, Ref(a), t.value) <==> ProtoFree(h, Ref(a)))
  {
    ProtoFreeNext(h, a);
    if DeserializedAll(ms).Some? {
      ObjectRepresents(h, a, id, ms, DeserializedAll(ms).value);
    }
  }

  lemma {:induction false} AllReadBack(h: Heap, vs: seq<Value>, visited: seq<Addr>)
    requires WellFormed(h) && AllKnown(h, vs)
    ensures var ts := DeserializedAll(SerializedAll(h, vs, visited).0);
            ts.Some? ==> (AllRepresent(h, vs, ts.value) <==> AllProtoFree(h, vs))
    decreases |Unvisited(h, visited)|, |vs|
  {
    if vs != [] {
      var (m, visited1) := Serialized(h, vs[0], visited);
      VisitedGrows(h, visited, visited1);
      var ms := SerializedAll(h, vs[1..], visited1).0;
      ReadsBack(h, vs[0], visited);
      AllReadBack(h, vs[1..], visited1);
      ProtoFreeTail(h, vs);
      DeserializedCons(m, ms);
      if Deserialized(m).Some? && DeserializedAll(ms).Some? {
        AllRepresentTail(h, vs, Deserialized(m).value, DeserializedAll(ms).value);
      }
    }
  }

  lemma DeserializedCons(m: Message, ms: seq<Message>)
    ensures DeserializedAll([m] + ms) ==
            if Deserialized(m).Some? && DeserializedAll(ms).Some? then
              Some([Deserialized(m).value] + DeserializedAll(ms).value)
            else None
  {
    assert ([m] + ms)[1..] == ms;
  }

  lemma AllRepresentTail(h: Heap, vs: seq<Value>, t: Tree, ts: seq<Tree>)
    requires vs != []
    ensures AllRepresent(h, vs, [t] + ts) <==> Represents(h, vs[0], t) && AllRepresent(h, vs[1..], ts)
  {
    var all := [t] + ts;
    assert forall i :: 0 <= i < |vs[1..]| ==> vs[1..][i] == vs[i + 1];
    assert forall i :: 0 <= i < |ts| ==> all[i + 1] == ts[i];
  }

  function Serialize(h: Heap, v: Value): Message
    requires WellFormed(h) && Known(h, v)
  {
    Serialized(h, v, []).0
  }

  /** The round trip works exactly when nothing is reached twice, and loses nothing exactly without `__proto__`. */
  lemma RoundTrip(h: Heap, v: Value)
    requires WellFormed(h) && Known(h, v)
    ensures Deserialized(Serialize(h, v)).Some? <==> Unshared(h, v)
    ensures Unshared(h, v) ==> (Represents(h, v, Deserialized(Serialize(h, v)).value) <==> ProtoFree(h, v))
  {
    ReferenceIffMetAgain(h, v, []);
    ReadableIffNoReference(Serialize(h, v));
    ReadsBack(h, v, []);
  }

  /** The form of a message, value by value. */
  lemma MessageIs(h: Heap, v: Value, visited: seq<Addr>)
    requires WellFormed(h) && Known(h, v)
    ensures var m := Serialized(h, v, visited).0;
            && (v in {Undefined, Null} ==> m == Plain(Null))
            && (v.Boolean? || v.Number? || v.Text? ==> m == Plain(v))
            && (v.LocalPort? ==> m == NativePort(v.id))
            && (v.DartPort? ==> m == IsolatePort(v.isolate, v.port))
            && (v.Ref? && v.a in visited ==> m.Reference? && m.id < |visited| && visited[m.id] == v.a)
            && (v.Ref? && v.a !in visited && h[v.a].Array? ==>
                  m.ListMessage? && m.id == |visited| && |m.values| == |h[v.a].items|)
            && (v.Ref? && v.a !in visited && h[v.a].Record? ==>
                  m.MapMessage? && m.id == |visited| && m.keys == h[v.a].keys && |m.values| == |h[v.a].items|)
  {
  }

  lemma AllOfOne(h: Heap, v: Value, visited: seq<Addr>)
    requires WellFormed(h) && Known(h, v)
    ensures var (m, visited') := Serialized(h, v, visited);
            SerializedAll(h, [v], visited) == ([m], visited')
  {
    var (m, visited') := Serialized(h, v, visited);
    assert [v][1..] == [] && SerializedAll(h, [], visited') == ([], visited');
    assert [m] + [] == [m];
  }

  /** A list that holds itself is written with a reference, which cannot be read. */
  lemma CycleIsUnreadable()
    ensures var h: Heap := map[0 := Array([Ref(0)])];
            && WellFormed(h) && Serialize(h, Ref(0)) == ListMessage(0, [Reference(0)])
            && Deserialized(Serialize(h, Ref(0))).None? && !Unshared(h, Ref(0))
  {
    var h: Heap := map[0 := Array([Ref(0)])];
    assert h[0].items[1..] == [] && [0] == [] + [0];
    assert Serialized(h, Ref(0), [0]) == (Reference(0), [0]);
    AllOfOne(h, Ref(0), [0]);
    ReadableIffNoReference(ListMessage(0, [Reference(0)]));
    RoundTrip(h, Ref(0));
  }

  /** An own property called `__proto__` is written and read, and then is not there. */
  lemma ProtoIsLost()
    ensures var h: Heap := map[0 := Record([PROTO], [Boolean(true)])];
            && WellFormed(h) && Serialize(h, Ref(0)) == MapMessage(0, [PROTO], [Plain(Boolean(true))])
            && Deserialized(Serialize(h, Ref(0))) == Some(TreeMap([])) && !Represents(h, Ref(0), TreeMap([]))
  {
    var h: Heap := map[0 := Record([PROTO], [Boolean(true)])];
    assert h[0].items[1..] == [] && [0] == [] + [0];
    AllOfOne(h, Boolean(true), [0]);
    var ms, ts := [Plain(Boolean(true))], [Leaf(Boolean(true))];
    assert ms[1..] == [] && ts == ts + [];
    assert DeserializedAll([]) == Some([]);
    assert DeserializedAll(ms) == Some(ts);
    assert PutAll([], [PROTO], [Leaf(Boolean(true))]) == [];
  }

  // ---------- The loops ----------

  lemma {:induction false} SerializedSnoc(h: Heap, vs: seq<Value>, v: Value, visited: seq<Addr>)
    requires WellFormed(h) && AllKnown(h, vs) && Known(h, v)
    ensures var (ms, visited1) := SerializedAll(h, vs, visited);
            var (m, visited2) := Serialized(h, v, visited1);
            SerializedAll(h, vs + [v], visited) == (ms + [m], visited2)
    decreases |vs|
  {
    if vs == [] {
      assert vs + [v] == [v] && [v][1..] == [];
      var m := Serialized(h, v, visited).0;
      assert [m] + [] == [] + [m];
    } else {
      assert (vs + [v])[1..] == vs[1..] + [v];
      var (first, visited1) := Serialized(h, vs[0], visited);
      SerializedSnoc(h, vs[1..], v, visited1);
      var (ms, visited2) := SerializedAll(h, vs[1..], visited1);
      var m := Serialized(h, v, visited2).0;
      assert [first] + (ms + [m]) == [first] + ms + [m];
    }
  }

  class Serializer {
    const h: Heap
    var visited: seq<Addr>

    constructor (h: Heap)
      ensures this.h == h && visited == []
    {
      this.h, visited := h, [];
    }

    method DoSerialize(v: Value) returns (m: Message)
      requires WellFormed(h) && Known(h, v)
      modifies `visited
      ensures (m, visited) == Serialized(h, v, old(visited))
      decreases |Unvisited(h, visited)|, 1
    {
      match v
      case Undefined => m := Plain(Null);
      case LocalPort(id) => m := NativePort(id);
      case DartPort(isolate, port) => m := IsolatePort(isolate, port);
      case Ref(a) => m := CheckedSerialization(a);
      case _ => m := Plain(v);
    }

    /** A reference to an object met before, or else the object under the next number. */
    method CheckedSerialization(a: Addr) returns (m: Message)
      requires WellFormed(h) && a in h
      modifies `visited
      ensures (m, visited) == Serialized(h, Ref(a), old(visited))
      decreases |Unvisited(h, visited)|, 0
    {
      if a in visited {
        return Reference(IndexOf(visited, a));
      }
      VisitedOne(h, visited, a);
      assert ObjectOk(h, h[a]);
      var id := |visited|;
      visited := visited + [a];
      var values := SerializeItems(h[a].items);
      m := Wrapped(h[a], id, values);
    }

    method SerializeItems(items: seq<Value>) returns (values: seq<Message>)
      requires WellFormed(h) && AllKnown(h, items)
      modifies `visited
      ensures (values, visited) == SerializedAll(h, items, old(visited))
      decreases |Unvisited(h, visited)|, 2
    {
      values := [];
      ghost var start := visited;
      assert items[..0] == [];
      for i := 0 to |items|
        invariant (values, visited) == SerializedAll(h, items[..i], start)
      {
        SerializedSnoc(h, items[..i], items[i], start);
        assert items[..i + 1] == items[..i] + [items[i]];
        VisitedGrows(h, start, visited);
        var value := DoSerialize(items[i]);
        values := values + [value];
      }
      assert items[..|items|] == items;
    }
  }

  lemma {:induction false} DeserializedSnoc(ms: seq<Message>, m: Message)
    ensures DeserializedAll(ms + [m]) ==
            if DeserializedAll(ms).Some? && Deserialized(m).Some? then
              Some(DeserializedAll(ms).value + [Deserialized(m).value])
            else None
  {
    if ms == [] {
      assert ms + [m] == [m] && [m][1..] == [];
      if Deserialized(m).Some? {
        assert [Deserialized(m).value] + [] == [] + [Deserialized(m).value];
      }
    } else {
      assert (ms + [m])[1..] == ms[1..] + [m];
      DeserializedSnoc(ms[1..], m);
      if DeserializedAll(ms).Some? && Deserialized(m).Some? {
        var first, ts, t := Deserialized(ms[0]).value, DeserializedAll(ms[1..]).value, Deserialized(m).value;
        assert [first] + (ts + [t]) == [first] + ts + [t];
      }
    }
  }

  lemma {:induction false} UnreadableLater(ms: seq<Message>, i: nat)
    requires i <= |ms| && DeserializedAll(ms[..i]).None?
    ensures DeserializedAll(ms).None?
    decreases |ms| - i
  {
    if i < |ms| {
      assert ms[..i + 1] == ms[..i] + [ms[i]];
      DeserializedSnoc(ms[..i], ms[i]);
      UnreadableLater(ms, i + 1);
    } else {
      assert ms[..i] == ms;
    }
  }

  lemma {:induction false} PutAllSnoc(fields: seq<Field>, keys: seq<string>, ts: seq<Tree>, key: string, t: Tree)
    requires |keys| == |ts|
    ensures PutAll(fields, keys + [key], ts + [t]) == Put(PutAll(fields, keys, ts), key, t)
    decreases |keys|
  {
    if keys == [] {
      assert (keys + [key])[1..] == [] && (ts + [t])[1..] == [];
    } else {
      assert (keys + [key])[1..] == keys[1..] + [key] && (ts + [t])[1..] == ts[1..] + [t];
      PutAllSnoc(Put(fields, keys[0], ts[0]), keys[1..], ts[1..], key, t);
    }
  }

  /** A map's keys come with as many values. */
  predicate Paired(m: Message) {
    match m
    case ListMessage(_, values) => AllPaired(values)
    case MapMessage(_, keys, values) => |keys| == |values| && AllPaired(values)
    case _ => true
  }

  predicate AllPaired(ms: seq<Message>) {
    ms != [] ==> Paired(ms[0]) && AllPaired(ms[1..])
  }

  lemma {:induction false} PairedAt(ms: seq<Message>, i: nat)
    requires AllPaired(ms) && i < |ms|
    ensures Paired(ms[i])
  {
    if i > 0 {
      PairedAt(ms[1..], i - 1);
    }
  }

  lemma {:induction false} SerializedPaired(h: Heap, v: Value, visited: seq<Addr>)
    requires WellFormed(h) && Known(h, v)
    ensures Paired(Serialized(h, v, visited).0)
    decreases |Unvisited(h, visited)|, 0
  {
    if v.Ref? && v.a !in visited {
      VisitedOne(h, visited, v.a);
      assert ObjectOk(h, h[v.a]);
      AllSerializedPaired(h, h[v.a].items, visited + [v.a]);
    }
  }

  lemma {:induction false} AllSerializedPaired(h: Heap, vs: seq<Value>, visited: seq<Addr>)
    requires WellFormed(h) && AllKnown(h, vs)
    ensures AllPaired(SerializedAll(h, vs, visited).0)
    decreases |Unvisited(h, visited)|, |vs|
  {
    if vs != [] {
      var visited1 := Serialized(h, vs[0], visited).1;
      SerializedPaired(h, vs[0], visited);
      VisitedGrows(h, visited, visited1);
      AllSerializedPaired(h, vs[1..], visited1);
      var ms := SerializedAll(h, vs, visited).0;
      assert ms[1..] == SerializedAll(h, vs[1..], visited1).0;
    }
  }

  /** `None` stands for the exception. */
  method DeserializeHelper(m: Message) returns (t: Option<Tree>)
    requires Paired(m)
    ensures t == Deserialized(m)
    decreases m, 1
  {
    match m
    case Plain(v) => t := Some(Leaf(v));
    case NativePort(port) => t := Some(Leaf(LocalPort(port)));
    case IsolatePort(isolate, port) => t := Some(Leaf(DartPort(isolate, port)));
    case Reference(_) => t := None;
    case ListMessage(_, values) => t := DeserializeList(m, values);
    case MapMessage(_, keys, values) => t := DeserializeMap(m, keys, values);
  }

  method DeserializeList(ghost m: Message, values: seq<Message>) returns (t: Option<Tree>)
    requires m.ListMessage? && m.values == values && Paired(m)
    ensures t == Deserialized(m)
    decreases m, 0
  {
    var result: seq<Tree> := [];
    assert values[..0] == [];
    for i := 0 to |values|
      invariant DeserializedAll(values[..i]) == Some(result)
    {
      assert values[..i + 1] == values[..i] + [values[i]];
      DeserializedSnoc(values[..i], values[i]);
      PairedAt(values, i);
      var value := DeserializeHelper(values[i]);
      if value.None? {
        UnreadableLater(values, i + 1);
        return None;
      }
      result := result + [value.value];
    }
    assert values[..|values|] == values;
    t := Some(TreeList(result));
  }

  method DeserializeMap(ghost m: Message, keys: seq<string>, values: seq<Message>) returns (t: Option<Tree>)
    requires m.MapMessage? && m.values == values && m.keys == keys && Paired(m)
    ensures t == Deserialized(m)
    decreases m, 0
  {
    var result: seq<Field> := [];
    ghost var ts: seq<Tree> := [];
    assert values[..0] == [] && keys[..0] == [];
    for i := 0 to |keys|
      invariant DeserializedAll(values[..i]) == Some(ts) && result == PutAll([], keys[..i], ts)
    {
      assert values[..i + 1] == values[..i] + [values[i]] && keys[..i + 1] == keys[..i] + [keys[i]];
      DeserializedSnoc(values[..i], values[i]);
      PairedAt(values, i);
      var value := DeserializeHelper(values[i]);
      if value.None? {
        UnreadableLater(values, i + 1);
        return None;
      }
      PutAllSnoc([], keys[..i], ts, keys[i], value.value);
      result := Put(result, keys[i], value.value);
      ts := ts + [value.value];
    }
    assert values[..|values|] == values && keys[..|keys|] == keys;
    t := Some(TreeMap(result));
  }
}
