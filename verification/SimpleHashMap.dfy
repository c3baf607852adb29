/**
 * The open-addressing hash table under the event handler's socket map, port
 * maps and timeout index: linear probing, growth at 80%, and deletion that
 * moves later entries back instead of leaving a mark.
 *
 * The reference is a finite map.  What makes probing correct is that every
 * entry can be reached from its home slot without crossing a free one; deletion
 * has to restore that around the hole it makes.  Positions are compared by
 * their distance behind some free slot, which no such path can cross, so that
 * the circle becomes a line.
 */
module SimpleHashMap {
  import opened Basics

  type Key = int
  type Value = int

  const NULL: int := 0

  datatype Slot = Free | Used(key: Key, hash: nat, value: Value)

  type Table = seq<Slot>

  // ---------- Positions on the circle ----------

  function Home(hash: nat, n: nat): nat
    requires n > 0
    ensures Home(hash, n) < n
  {
    hash % n
  }

  function Next(i: nat, n: nat): nat
    requires i < n
  {
    if i + 1 == n then 0 else i + 1
  }

  /** How far behind `f` the slot `i` is. */
  function Rel(i: nat, f: nat, n: nat): nat
    requires i < n && f < n
  {
    if i >= f then i - f else i - f + n
  }

  /** `k` is met on the way from `s` up to but not including `i`. */
  predicate OnTheWay(s: nat, k: nat, i: nat) {
    if s <= i then s <= k < i else k >= s || k < i
  }

  /** Every slot on the way from its home to the entry in slot `i` is in use. */
  ghost predicate Placed(t: Table, i: nat)
    requires i < |t| && t[i].Used?
  {
    forall k :: 0 <= k < |t| && OnTheWay(Home(t[i].hash, |t|), k, i) ==> t[k].Used?
  }

  /** The same, in distances behind `f`. */
  ghost predicate PlacedFrom(t: Table, f: nat, i: nat)
    requires i < |t| && f < |t| && t[i].Used?
  {
    var n, s := |t|, Home(t[i].hash, |t|);
    && Rel(s, f, n) <= Rel(i, f, n)
    && forall k :: 0 <= k < n && Rel(s, f, n) <= Rel(k, f, n) < Rel(i, f, n) ==> t[k].Used?
  }

  /** A path that crosses no free slot lies on the line behind any free slot. */
  lemma PlacedAnywhere(t: Table, f: nat, i: nat)
    requires i < |t| && f < |t| && t[f].Free? && t[i].Used?
    ensures Placed(t, i) <==> PlacedFrom(t, f, i)
  {
    var n, s := |t|, Home(t[i].hash, |t|);
    if Placed(t, i) {
      assert !OnTheWay(s, f, i);
      forall k | 0 <= k < n && Rel(s, f, n) <= Rel(k, f, n) < Rel(i, f, n)
        ensures t[k].Used?
      {
        assert OnTheWay(s, k, i);
      }
    }
    if PlacedFrom(t, f, i) {
      forall k | 0 <= k < n && OnTheWay(s, k, i)
        ensures t[k].Used?
      {
        assert Rel(s, f, n) <= Rel(k, f, n) < Rel(i, f, n);
      }
    }
  }

  // ---------- The table as a map ----------

  /** Hashes are those of the keys, and no key is stored twice. */
  ghost predicate Unique(t: Table, hash: Key -> nat) {
    && (forall i :: 0 <= i < |t| && t[i].Used? ==> t[i].hash == hash(t[i].key))
    && forall i, j :: 0 <= i < |t| && 0 <= j < |t| && t[i].Used? && t[j].Used? && t[i].key == t[j].key ==> i == j
  }

  /** The table holds exactly the pairs of `m`. */
  ghost predicate Holds(t: Table, m: map<Key, Value>) {
    && (forall i :: 0 <= i < |t| && t[i].Used? ==> t[i].key in m && m[t[i].key] == t[i].value)
    && (forall k :: k in m ==> InTable(t, k))
  }

  ghost predicate InTable(t: Table, key: Key) {
    exists i :: 0 <= i < |t| && t[i].Used? && t[i].key == key
  }

  ghost predicate AllPlaced(t: Table) {
    forall i :: 0 <= i < |t| && t[i].Used? ==> Placed(t, i)
  }

  ghost predicate HasFree(t: Table) {
    exists f :: 0 <= f < |t| && t[f].Free?
  }

  ghost predicate Represents(t: Table, hash: Key -> nat, m: map<Key, Value>) {
    Unique(t, hash) && Holds(t, m) && AllPlaced(t)
  }

  lemma {:induction false} KeysOfFull(t: Table, n: nat, m: map<Key, Value>, hash: Key -> nat) returns (keys: set<Key>)
    requires n <= |t| && Unique(t, hash) && Holds(t, m) && forall i :: 0 <= i < n ==> t[i].Used?
    ensures |keys| == n && keys <= m.Keys && forall k :: k in keys ==> exists i :: 0 <= i < n && t[i].key == k
  {
    if n == 0 {
      keys := {};
    } else {
      var before := KeysOfFull(t, n - 1, m, hash);
      var k := t[n - 1].key;
      forall x | x in before
        ensures x != k
      {
        var i :| 0 <= i < n - 1 && t[i].key == x;
      }
      keys := before + {k};
    }
  }

  lemma SubsetSize(a: set<Key>, b: set<Key>)
    requires a <= b
    ensures |a| <= |b|
  {
    assert b == a + (b - a);
  }

  /** With fewer pairs than slots there is a free slot. */
  lemma FreeSlot(t: Table, hash: Key -> nat, m: map<Key, Value>) returns (f: nat)
    requires Unique(t, hash) && Holds(t, m) && |m| < |t|
    ensures f < |t| && t[f].Free?
  {
    if HasFree(t) {
      f :| 0 <= f < |t| && t[f].Free?;
    } else {
      assert |m.Keys| == |m|;
      var keys := KeysOfFull(t, |t|, m, hash);
      SubsetSize(keys, m.Keys);
      assert false;
    }
  }

  // ---------- Probing ----------

  /** Where probing for `key` has got to: every slot from its home on is in use by other keys. */
  ghost predicate ProbedTo(t: Table, hash: Key -> nat, key: Key, p: nat) {
    && p < |t|
    && forall k :: 0 <= k < |t| && OnTheWay(Home(hash(key), |t|), k, p) ==> t[k].Used? && t[k].key != key
  }

  /** A free slot reached by probing proves the key absent. */
  lemma ProbeMisses(t: Table, hash: Key -> nat, m: map<Key, Value>, key: Key, p: nat)
    requires |t| > 0 && Represents(t, hash, m) && ProbedTo(t, hash, key, p) && t[p].Free?
    ensures key !in m
  {
    forall i | 0 <= i < |t| && t[i].Used?
      ensures t[i].key != key
    {
      assert Placed(t, i);
      EitherWay(Home(t[i].hash, |t|), p, i);
    }
    assert !InTable(t, key);
  }

  /** Of two slots, one is met before the other. */
  lemma EitherWay(s: nat, p: nat, i: nat)
    ensures p == i || OnTheWay(s, p, i) || OnTheWay(s, i, p)
  {
  }

  /** One step further. */
  lemma ProbeStep(t: Table, hash: Key -> nat, key: Key, p: nat, f: nat)
    requires f < |t| && t[f].Free? && ProbedTo(t, hash, key, p) && t[p].Used? && t[p].key != key
    ensures ProbedTo(t, hash, key, Next(p, |t|))
    ensures Rel(Next(p, |t|), f, |t|) != Rel(p, f, |t|)
    ensures Rel(p, f, |t|) > 0 && (Next(p, |t|) == f || Rel(Next(p, |t|), f, |t|) == Rel(p, f, |t|) + 1)
  {
    var n, s := |t|, Home(hash(key), |t|);
    var q := Next(p, n);
    forall k | 0 <= k < n && OnTheWay(s, k, q)
      ensures t[k].Used? && t[k].key != key
    {
      if k != p {
        // The way would close on itself only past the free slot.
        assert q == s ==> OnTheWay(s, f, p) || f == p;
        assert OnTheWay(s, k, p);
      }
    }
  }

  /** Putting an entry where probing for its key stopped keeps everything in its place. */
  lemma InsertKeeps(t: Table, hash: Key -> nat, m: map<Key, Value>, key: Key, p: nat, v: Value)
    requires |t| > 0 && Represents(t, hash, m) && ProbedTo(t, hash, key, p) && t[p].Free?
    ensures Represents(t[p := Used(key, hash(key), v)], hash, m[key := v])
  {
    ProbeMisses(t, hash, m, key, p);
    var u := t[p := Used(key, hash(key), v)];
    forall k | k in m[key := v]
      ensures InTable(u, k)
    {
      if k == key {
        assert u[p].key == key;
      } else {
        assert InTable(t, k);
        var i :| 0 <= i < |t| && t[i].Used? && t[i].key == k;
        assert u[i] == t[i];
      }
    }
    forall i | 0 <= i < |u| && u[i].Used?
      ensures Placed(u, i)
    {
      if i != p {
        assert Placed(t, i);
      }
    }
  }

  // ---------- Deletion ----------

  /**
   * While deleting: slot `c` is to be vacated and counts as in use meanwhile,
   * slots up to distance `r` behind the free slot `f` have been looked at, and
   * the entries among them past `c` have their homes past `c` as well.
   */
  ghost predicate Vacating(t: Table, hash: Key -> nat, m: map<Key, Value>, f: nat, c: nat, r: nat) {
    var n := |t|;
    && f < n && t[f].Free? && c < n && t[c].Used? && Rel(c, f, n) <= r < n
    && (forall i :: 0 <= i < n && t[i].Used? && i != c ==> PlacedFrom(t, f, i))
    && (forall i :: 0 <= i < n && Rel(c, f, n) < Rel(i, f, n) <= r ==>
                      t[i].Used? && Rel(Home(t[i].hash, n), f, n) > Rel(c, f, n))
    && HoldsBut(t, hash, m, c)
  }

  /** The slots other than `c` hold exactly `m`. */
  ghost predicate HoldsBut(t: Table, hash: Key -> nat, m: map<Key, Value>, c: nat)
    requires c < |t|
  {
    Unique(t[c := Free], hash) && Holds(t[c := Free], m)
  }

  /** Deleting starts at the slot of the key. */
  lemma VacateStart(t: Table, hash: Key -> nat, m: map<Key, Value>, f: nat, c: nat)
    requires f < |t| && t[f].Free? && c < |t| && t[c].Used? && Represents(t, hash, m)
    ensures Vacating(t, hash, m - {t[c].key}, f, c, Rel(c, f, |t|))
  {
    forall i | 0 <= i < |t| && t[i].Used?
      ensures PlacedFrom(t, f, i)
    {
      PlacedAnywhere(t, f, i);
      assert Placed(t, i);
    }
    var u, m' := t[c := Free], m - {t[c].key};
    forall k | k in m'
      ensures InTable(u, k)
    {
      assert InTable(t, k);
      var i :| 0 <= i < |t| && t[i].Used? && t[i].key == k;
      assert u[i] == t[i];
    }
  }

  /** The test on raw positions: the entry's home is not past the slot being vacated. */
  predicate MayMove(candidate: nat, next: nat, start: nat) {
    || (next > candidate && (start <= candidate || start > next))
    || (next < candidate && start <= candidate && start > next)
  }

  lemma MayMoveIs(c: nat, x: nat, s: nat, f: nat, n: nat)
    requires c < n && x < n && s < n && f < n
    requires Rel(c, f, n) < Rel(x, f, n) && Rel(s, f, n) <= Rel(x, f, n)
    ensures MayMove(c, x, s) <==> Rel(s, f, n) <= Rel(c, f, n)
  {
  }

  lemma RelInjective(i: nat, j: nat, f: nat, n: nat)
    requires i < n && j < n && f < n && Rel(i, f, n) == Rel(j, f, n)
    ensures i == j
  {
  }

  /** The entry looked at stays: its way does not cross the slot being vacated. */
  lemma VacateKeep(t: Table, hash: Key -> nat, m: map<Key, Value>, f: nat, c: nat, x: nat)
    requires x < |t| && f < |t| && c < |t| && Rel(x, f, |t|) > 0
    requires Vacating(t, hash, m, f, c, Rel(x, f, |t|) - 1) && t[x].Used?
    requires Rel(Home(t[x].hash, |t|), f, |t|) > Rel(c, f, |t|)
    ensures Vacating(t, hash, m, f, c, Rel(x, f, |t|))
  {
    var n := |t|;
    forall i | 0 <= i < n && Rel(c, f, n) < Rel(i, f, n) <= Rel(x, f, n)
      ensures t[i].Used? && Rel(Home(t[i].hash, n), f, n) > Rel(c, f, n)
    {
      if Rel(i, f, n) == Rel(x, f, n) {
        RelInjective(i, x, f, n);
      }
    }
  }

  /** The entry looked at moves into the vacated slot, and its own is vacated next. */
  lemma VacateMove(t: Table, hash: Key -> nat, m: map<Key, Value>, f: nat, c: nat, x: nat)
    requires x < |t| && f < |t| && c < |t| && Rel(x, f, |t|) > Rel(c, f, |t|)
    requires Vacating(t, hash, m, f, c, Rel(x, f, |t|) - 1) && t[x].Used?
    requires Rel(Home(t[x].hash, |t|), f, |t|) <= Rel(c, f, |t|)
    ensures Vacating(t[c := t[x]], hash, m, f, x, Rel(x, f, |t|))
  {
    var n, u := |t|, t[c := t[x]];
    forall i | 0 <= i < n && u[i].Used? && i != x
      ensures PlacedFrom(u, f, i)
    {
      if i == c {
        assert PlacedFrom(t, f, x);
      } else {
        assert PlacedFrom(t, f, i);
      }
    }
    HoldsButMoved(t, hash, m, c, x);
  }

  lemma HoldsButMoved(t: Table, hash: Key -> nat, m: map<Key, Value>, c: nat, x: nat)
    requires c < |t| && x < |t| && c != x && t[x].Used? && HoldsBut(t, hash, m, c)
    ensures HoldsBut(t[c := t[x]], hash, m, x)
  {
    var a, b := t[c := Free], t[c := t[x]][x := Free];
    assert forall i :: 0 <= i < |t| && i != c && i != x ==> a[i] == b[i];
    assert b[c] == a[x];
    forall k | k in m
      ensures InTable(b, k)
    {
      assert InTable(a, k);
      var i :| 0 <= i < |a| && a[i].Used? && a[i].key == k;
      assert b[if i == x then c else i] == a[i];
    }
  }

  /** Either way the next entry is dealt with. */
  lemma VacateStep(t: Table, hash: Key -> nat, m: map<Key, Value>, f: nat, c: nat, r: nat, x: nat)
    requires Vacating(t, hash, m, f, c, r) && x < |t| && t[x].Used?
    requires x == f || Rel(x, f, |t|) == r + 1
    ensures Rel(x, f, |t|) == r + 1
    ensures if MayMove(c, x, Home(t[x].hash, |t|)) then Vacating(t[c := t[x]], hash, m, f, x, Rel(x, f, |t|))
            else Vacating(t, hash, m, f, c, Rel(x, f, |t|))
  {
    assert PlacedFrom(t, f, x);
    MayMoveIs(c, x, Home(t[x].hash, |t|), f, |t|);
    if MayMove(c, x, Home(t[x].hash, |t|)) {
      VacateMove(t, hash, m, f, c, x);
    } else {
      VacateKeep(t, hash, m, f, c, x);
    }
  }

  /** At a free slot nothing further back can depend on the vacated one, which is freed. */
  lemma VacateEnd(t: Table, hash: Key -> nat, m: map<Key, Value>, f: nat, c: nat, r: nat, x: nat)
    requires Vacating(t, hash, m, f, c, r) && x < |t| && t[x].Free?
    requires x == f || Rel(x, f, |t|) == r + 1
    requires x == f ==> r + 1 == |t|
    ensures Represents(t[c := Free], hash, m)
  {
    var n, u := |t|, t[c := Free];
    forall i | 0 <= i < n && u[i].Used?
      ensures Placed(u, i)
    {
      assert PlacedFrom(t, f, i);
      var s := Home(t[i].hash, n);
      if Rel(i, f, n) > Rel(c, f, n) {
        // Past the hole: looked at, or behind the free slot and so not reached across it.
        assert Rel(i, f, n) <= r || (x != f && Rel(i, f, n) > Rel(x, f, n)) || i == x by {
          if Rel(i, f, n) == r + 1 && x != f {
            RelInjective(i, x, f, n);
          }
        }
        assert Rel(s, f, n) > Rel(c, f, n);
      }
      assert PlacedFrom(u, f, i);
      PlacedAnywhere(u, f, i);
    }
  }

  // ---------- The class ----------

  lemma ValueStored(t: Table, hash: Key -> nat, m: map<Key, Value>, p: nat, v: Value)
    requires p < |t| && t[p].Used? && Represents(t, hash, m)
    ensures Represents(t[p := t[p].(value := v)], hash, m[t[p].key := v])
  {
    var u := t[p := t[p].(value := v)];
    forall k | k in m[t[p].key := v]
      ensures InTable(u, k)
    {
      assert k in m;
      assert InTable(t, k);
      var i :| 0 <= i < |t| && t[i].Used? && t[i].key == k;
      assert u[i].key == k;
    }
    forall i | 0 <= i < |u| && u[i].Used?
      ensures Placed(u, i)
    {
      assert Placed(t, i);
    }
  }

  class HashMap {
    const hash: Key -> nat
    var table: array<Slot>
    var occupancy: nat
    ghost var contents: map<Key, Value>

    /** Occupancy is below 80% between operations. */
    ghost predicate Valid()
      reads this, table
    {
      && Sound()
      && occupancy + occupancy / 4 < table.Length
    }

    /** There is a free slot, so that probing ends. */
    ghost predicate Sound()
      reads this, table
    {
      Stored() && occupancy < table.Length
    }

    ghost predicate Stored()
      reads this, table
    {
      Represents(table[..], hash, contents) && occupancy == |contents| <= table.Length && table.Length > 0
    }

    constructor (hash: Key -> nat, capacity: nat)
      requires capacity > 0
      ensures Valid() && contents == map[] && table.Length == capacity && fresh(table) && this.hash == hash
    {
      this.hash := hash;
      table := new Slot[capacity](_ => Free);
      occupancy := 0;
      contents := map[];
    }

    /** The slot of the key, or the free slot where it would go. */
    method Probe(key: Key) returns (p: nat)
      requires Sound()
      ensures ProbedTo(table[..], hash, key, p) && (table[p].Used? ==> table[p].key == key)
      ensures table[p].Used? <==> key in contents
    {
      ghost var t := table[..];
      ghost var f := FreeSlot(t, hash, contents);
      p := Home(hash(key), table.Length);
      while table[p].Used? && table[p].key != key
        invariant ProbedTo(t, hash, key, p)
        decreases if p == f then 0 else table.Length - Rel(p, f, table.Length)
      {
        ProbeStep(t, hash, key, p, f);
        p := Next(p, table.Length);
      }
      if table[p].Free? {
        ProbeMisses(t, hash, contents, key, p);
      } else {
        assert t[p].key in contents;
      }
    }

    /** Finds a key, or enters it with a null value if asked to. */
    method Lookup(key: Key, insert: bool) returns (r: Option<nat>)
      requires Valid()
      modifies this, table
      ensures Valid() && (table == old(table) || fresh(table))
      ensures contents == if insert && key !in old(contents) then old(contents)[key := NULL] else old(contents)
      ensures r.Some? <==> key in contents
      ensures r.Some? ==> r.value < table.Length && table[r.value].Used? && table[r.value].key == key
      ensures table.Length == if |contents| + |contents| / 4 >= old(table.Length) then 2 * old(table.Length) else old(table.Length)
    {
      var p := Probe(key);
      if table[p].Used? {
        return Some(p);
      }
      if !insert {
        return None;
      }
      Enter(p, key, NULL);
      if occupancy + occupancy / 4 >= table.Length {
        Resize();
        p := Probe(key);
      }
      r := Some(p);
    }

    /** Fills the free slot probing found. */
    method Enter(p: nat, key: Key, v: Value)
      requires Sound() && ProbedTo(table[..], hash, key, p) && table[p].Free?
      modifies this`occupancy, this`contents, table
      ensures Stored() && contents == old(contents)[key := v] && key !in old(contents)
      ensures occupancy == old(occupancy) + 1 && table[p] == Used(key, hash(key), v)
    {
      ghost var t := table[..];
      InsertKeeps(t, hash, contents, key, p, v);
      ProbeMisses(t, hash, contents, key, p);
      table[p] := Used(key, hash(key), v);
      assert table[..] == t[p := Used(key, hash(key), v)];
      occupancy := occupancy + 1;
      contents := contents[key := v];
    }

    method SetValue(p: nat, v: Value)
      requires Valid() && p < table.Length && table[p].Used?
      modifies this`contents, table
      ensures Valid() && contents == old(contents)[old(table[p].key) := v]
    {
      ghost var t := table[..];
      ValueStored(t, hash, contents, p, v);
      assert t[p].key in contents;
      contents := contents[t[p].key := v];
      table[p] := table[p].(value := v);
      assert table[..] == t[p := t[p].(value := v)];
    }

    /** Deletes a key; later entries move back over the hole. */
    method Remove(key: Key)
      requires Valid()
      modifies this, table
      ensures Valid() && contents == old(contents) - {key} && table == old(table)
    {
      var candidate := Probe(key);
      if table[candidate].Free? {
        assert contents - {key} == contents;
        return;
      }
      ghost var f := FreeSlot(table[..], hash, contents);
      VacateStart(table[..], hash, contents, f, candidate);
      ghost var rest := contents - {key};
      assert contents == rest[key := contents[key]];
      Vacate(candidate, f, rest);
      occupancy := occupancy - 1;
      contents := rest;
    }

    method Vacate(start: nat, ghost f: nat, ghost rest: map<Key, Value>)
      requires start < table.Length && f < table.Length
      requires Vacating(table[..], hash, rest, f, start, Rel(start, f, table.Length))
      modifies table
      ensures Represents(table[..], hash, rest)
    {
      var candidate: nat, next: nat := start, start;
      ghost var n := table.Length;
      while true
        invariant candidate < n && next < n
        invariant Vacating(table[..], hash, rest, f, candidate, Rel(next, f, n))
        decreases n - Rel(next, f, n)
      {
        ghost var t, r := table[..], Rel(next, f, n);
        next := next + 1;
        if next == table.Length {
          next := 0;
        }
        if table[next].Free? {
          VacateEnd(t, hash, rest, f, candidate, r, next);
          break;
        }
        VacateStep(t, hash, rest, f, candidate, r, next);
        var home := Home(table[next].hash, table.Length);
        if MayMove(candidate, next, home) {
          table[candidate] := table[next];
          assert table[..] == t[candidate := t[next]];
          candidate := next;
        }
      }
      ghost var t := table[..];
      table[candidate] := Free;
      assert table[..] == t[candidate := Free];
    }

    method Clear()
      requires Valid()
      modifies this, table
      ensures Valid() && contents == map[] && table == old(table)
    {
      var i := 0;
      while i < table.Length
        invariant 0 <= i <= table.Length && forall k :: 0 <= k < i ==> table[k].Free?
        invariant table == old(table)
      {
        table[i] := Free;
        i := i + 1;
      }
      occupancy := 0;
      contents := map[];
    }

    /** The first slot in use from `p` on, or the table's length: `Start` and `Next`. */
    method NextUsed(p: nat) returns (q: nat)
      requires p <= table.Length
      ensures p <= q <= table.Length && (q < table.Length ==> table[q].Used?)
      ensures forall i :: p <= i < q ==> table[i].Free?
    {
      q := p;
      while q < table.Length && table[q].Free?
        invariant p <= q <= table.Length && forall i :: p <= i < q ==> table[i].Free?
      {
        q := q + 1;
      }
    }

    /** An iteration from start to end meets the keys in slot order. */
    method CollectKeys() returns (keys: seq<Key>)
      ensures keys == SlotKeys(table[..])
    {
      ghost var t := table[..];
      keys := [];
      var p := NextUsed(0);
      SkipFree(t, 0, p);
      while p < table.Length
        invariant 0 <= p <= table.Length && (p < table.Length ==> table[p].Used?)
        invariant keys == SlotKeys(t[..p])
        decreases table.Length - p
      {
        assert t[..p + 1][..p] == t[..p];
        keys := keys + [table[p].key];
        var q := NextUsed(p + 1);
        SkipFree(t, p + 1, q);
        p := q;
      }
      assert t[..p] == t;
    }

    /** An iteration from start to end meets every key once. */
    method Iterate() returns (keys: seq<Key>)
      requires Valid()
      ensures forall k :: k in keys <==> k in contents
      ensures forall i, j :: 0 <= i < j < |keys| ==> keys[i] != keys[j]
    {
      keys := CollectKeys();
      SlotKeysCover(table[..], hash, contents);
    }

    /** Doubles the table and enters every pair again. */
    method Resize()
      requires Stored()
      modifies this
      ensures Valid() && contents == old(contents) && fresh(table) && table.Length == 2 * old(table.Length)
    {
      var was := table;
      ghost var all, t := contents, table[..];
      table := new Slot[2 * was.Length](_ => Free);
      occupancy := 0;
      contents := map[];
      NothingStored(table[..], hash);
      assert Copied(t, 0, contents, all);
      CopyAll(was, all);
      CopiedAll(t, contents, all);
    }

    method CopyAll(was: array<Slot>, ghost all: map<Key, Value>)
      requires was != table && was.Length < table.Length && Unique(was[..], hash)
      requires Sound() && occupancy == 0 && Copied(was[..], 0, contents, all)
      modifies this`occupancy, this`contents, table
      ensures Sound() && occupancy <= was.Length && Copied(was[..], was.Length, contents, all)
    {
      for i := 0 to was.Length
        invariant Sound() && was[..] == old(was[..]) && Copied(was[..], i, contents, all) && occupancy <= i
      {
        CopySlot(was[i], was[..], i, all);
      }
    }

    /** One slot of the former table. */
    method CopySlot(slot: Slot, ghost t: Table, ghost i: nat, ghost all: map<Key, Value>)
      requires Sound() && Copied(t, i, contents, all) && Unique(t, hash)
      requires i < |t| && t[i] == slot && occupancy <= i && |t| < table.Length
      modifies this`occupancy, this`contents, table
      ensures Sound() && Copied(t, i + 1, contents, all) && occupancy <= i + 1
    {
      if slot.Used? {
        CopyNext(t, hash, i, contents, all);
        var p := Probe(slot.key);
        Enter(p, slot.key, slot.value);
      } else {
        CopyFree(t, i, contents, all);
      }
    }
  }

  /** `m` holds the pairs of the first `i` slots of `t`, all of them pairs of `all`. */
  ghost predicate Copied(t: Table, i: nat, m: map<Key, Value>, all: map<Key, Value>) {
    && i <= |t| && Holds(t, all)
    && (forall k :: k in m ==> k in all && m[k] == all[k] && InTable(t[..i], k))
    && (forall j :: 0 <= j < i && t[j].Used? ==> t[j].key in m)
  }

  lemma CopyFree(t: Table, i: nat, m: map<Key, Value>, all: map<Key, Value>)
    requires Copied(t, i, m, all) && i < |t| && t[i].Free?
    ensures Copied(t, i + 1, m, all)
  {
    forall k | k in m
      ensures InTable(t[..i + 1], k)
    {
      assert InTable(t[..i], k);
      var j :| 0 <= j < i && t[..i][j].Used? && t[..i][j].key == k;
      assert t[..i + 1][j] == t[..i][j];
    }
  }

  lemma CopyNext(t: Table, hash: Key -> nat, i: nat, m: map<Key, Value>, all: map<Key, Value>)
    requires Copied(t, i, m, all) && Unique(t, hash) && i < |t| && t[i].Used?
    ensures t[i].key !in m && Copied(t, i + 1, m[t[i].key := t[i].value], all)
  {
    forall k | k in m
      ensures k != t[i].key && InTable(t[..i + 1], k)
    {
      assert InTable(t[..i], k);
      var j :| 0 <= j < i && t[..i][j].Used? && t[..i][j].key == k;
      assert t[..i + 1][j] == t[..i][j] == t[j];
    }
    assert t[..i + 1][i] == t[i];
    assert InTable(t[..i + 1], t[i].key);
  }

  lemma CopiedAll(t: Table, m: map<Key, Value>, all: map<Key, Value>)
    requires Copied(t, |t|, m, all)
    ensures m == all
  {
    forall k
      ensures k in m <==> k in all
    {
      if k in all {
        assert InTable(t, k);
        var j :| 0 <= j < |t| && t[j].Used? && t[j].key == k;
        assert t[j].key in m;
      }
    }
    assert forall k :: k in m ==> m[k] == all[k];
  }

  /** The keys in slot order. */
  function SlotKeys(t: Table): seq<Key> {
    if t == [] then []
    else
      var before, last := SlotKeys(t[..|t| - 1]), t[|t| - 1];
      if last.Used? then before + [last.key] else before
  }

  lemma {:induction false} SkipFree(t: Table, p: nat, q: nat)
    requires p <= q <= |t| && forall i :: p <= i < q ==> t[i].Free?
    ensures SlotKeys(t[..q]) == SlotKeys(t[..p])
    decreases q
  {
    if p < q {
      SkipFree(t, p, q - 1);
      assert t[..q][..q - 1] == t[..q - 1];
    }
  }

  lemma {:induction false} SlotKeysAre(t: Table, hash: Key -> nat)
    requires Unique(t, hash)
    ensures forall k :: k in SlotKeys(t) <==> InTable(t, k)
    ensures forall i, j :: 0 <= i < j < |SlotKeys(t)| ==> SlotKeys(t)[i] != SlotKeys(t)[j]
    decreases |t|
  {
    if t != [] {
      var n := |t| - 1;
      var front := t[..n];
      assert Unique(front, hash);
      SlotKeysAre(front, hash);
      forall k
        ensures InTable(t, k) <==> InTable(front, k) || (t[n].Used? && t[n].key == k)
      {
        if InTable(front, k) {
          var i :| 0 <= i < n && front[i].Used? && front[i].key == k;
          assert t[i] == front[i];
        }
        if i :| 0 <= i < |t| && t[i].Used? && t[i].key == k {
          assert i < n ==> front[i] == t[i];
        }
      }
      forall i | 0 <= i < |SlotKeys(front)|
        ensures t[n].Used? ==> SlotKeys(front)[i] != t[n].key
      {
        var k := SlotKeys(front)[i];
        assert k in SlotKeys(front);
        assert InTable(front, k);
        var j :| 0 <= j < n && front[j].Used? && front[j].key == k;
        assert t[j] == front[j];
      }
    }
  }

  lemma SlotKeysCover(t: Table, hash: Key -> nat, m: map<Key, Value>)
    requires Represents(t, hash, m)
    ensures forall k :: k in SlotKeys(t) <==> k in m
    ensures forall i, j :: 0 <= i < j < |SlotKeys(t)| ==> SlotKeys(t)[i] != SlotKeys(t)[j]
  {
    SlotKeysAre(t, hash);
    forall k
      ensures InTable(t, k) <==> k in m
    {
      if InTable(t, k) {
        var i :| 0 <= i < |t| && t[i].Used? && t[i].key == k;
      }
    }
  }

  lemma NothingStored(t: Table, hash: Key -> nat)
    requires forall i :: 0 <= i < |t| ==> t[i].Free?
    ensures Represents(t, hash, map[])
  {
  }
}
