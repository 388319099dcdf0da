/** The open-addressed table of src/hash.c as a sequence of buckets, with one function
    for each operation that changes it. `HashTable` runs the same operations on an array. */
module ProbeTable {
  const MAX_PROBES: nat := 32

  type uint32 = x: int | 0 <= x < 0x1_0000_0000

  /** What decides a key's path: its hash, and rand_r as two functions of the seed,
      the number it returns and the seed it leaves behind. */
  datatype Prober<!K> = Prober(h: K -> uint32, out: uint32 -> nat, next: uint32 -> uint32)

  /** A bucket by its flags. A deleted bucket keeps its contents. */
  datatype Bucket<K, V> =
    | Clear
    | Occupied(hash: uint32, key: K, val: V)
    | Deleted(hash: uint32, key: K, val: V)

  /** The variable `hash` after i calls of rand_r. */
  function Seed<K>(p: Prober<K>, k: K, i: nat): uint32 {
    if i == 0 then p.h(k) else p.next(Seed(p, k, i - 1))
  }

  /** The index of the i-th bucket on k's path. */
  function Slot<K>(p: Prober<K>, k: K, cap: nat, i: nat): (s: nat)
    requires cap > 0
    ensures s < cap
  {
    if i == 0 then p.h(k) % cap else p.out(Seed(p, k, i - 1)) % cap
  }

  // ---------- the invariant and the map it stands for ----------

  /** The entry in bucket s is where the j-th probe of its key first leads, it stores the seed
      of that probe, and no bucket before it on the path is clear. */
  ghost predicate AtProbe<K(!new), V>(p: Prober<K>, b: seq<Bucket<K, V>>, s: nat, j: nat)
    requires s < |b| && b[s].Occupied?
  {
    && Slot(p, b[s].key, |b|, j) == s
    && b[s].hash == Seed(p, b[s].key, j)
    && forall i: nat :: i < j ==> Slot(p, b[s].key, |b|, i) != s && !b[Slot(p, b[s].key, |b|, i)].Clear?
  }

  ghost predicate Reachable<K(!new), V>(p: Prober<K>, b: seq<Bucket<K, V>>, s: nat)
    requires s < |b| && b[s].Occupied?
  {
    exists j: nat :: j < MAX_PROBES && AtProbe(p, b, s, j)
  }

  ghost predicate UniqueKeys<K(!new), V>(b: seq<Bucket<K, V>>) {
    forall s: nat, t: nat :: s < |b| && t < |b| && b[s].Occupied? && b[t].Occupied? && b[s].key == b[t].key ==> s == t
  }

  ghost predicate Inv<K(!new), V>(p: Prober<K>, b: seq<Bucket<K, V>>) {
    && |b| > 0
    && UniqueKeys(b)
    && forall s: nat :: s < |b| && b[s].Occupied? ==> Reachable(p, b, s)
  }

  ghost predicate Holds<K(!new), V>(b: seq<Bucket<K, V>>, s: nat, k: K) {
    s < |b| && b[s].Occupied? && b[s].key == k
  }

  /** The entries as a map. */
  ghost function Abs<K(!new), V>(b: seq<Bucket<K, V>>): (m: map<K, V>)
    requires UniqueKeys(b)
    ensures forall k :: k in m <==> exists s: nat :: Holds(b, s, k)
    ensures forall s: nat :: s < |b| && b[s].Occupied? ==> b[s].key in m && m[b[s].key] == b[s].val
  {
    assert forall s: nat :: s < |b| && b[s].Occupied? ==> Holds(b, s, b[s].key);
    map k | k in KeySet(b) :: ValAt(b, k)
  }

  ghost function KeySet<K(!new), V>(b: seq<Bucket<K, V>>): (ks: set<K>)
    ensures forall k :: k in ks <==> exists s: nat :: Holds(b, s, k)
  {
    var ks := set s: nat | s < |b| && b[s].Occupied? :: b[s].key;
    assert forall s: nat :: s < |b| && b[s].Occupied? ==> Holds(b, s, b[s].key) && b[s].key in ks;
    ks
  }

  ghost function ValAt<K(!new), V>(b: seq<Bucket<K, V>>, k: K): V
    requires exists s: nat :: Holds(b, s, k)
  {
    var s: nat :| Holds(b, s, k);
    b[s].val
  }

  ghost function SlotOf<K(!new), V>(b: seq<Bucket<K, V>>, k: K): (s: nat)
    requires UniqueKeys(b) && k in Abs(b)
    ensures Holds(b, s, k)
  {
    var s: nat :| Holds(b, s, k);
    s
  }

  // ---------- htab_get ----------

  ghost predicate Matches<K(!new), V>(p: Prober<K>, b: seq<Bucket<K, V>>, k: K, i: nat)
    requires |b| > 0
  {
    var e := b[Slot(p, k, |b|, i)];
    e.Occupied? && e.hash == Seed(p, k, i) && e.key == k
  }

  ghost predicate Stops<K(!new), V>(p: Prober<K>, b: seq<Bucket<K, V>>, k: K, i: nat)
    requires |b| > 0
  {
    b[Slot(p, k, |b|, i)].Clear? || Matches(p, b, k, i)
  }

  ghost predicate FirstStop<K(!new), V>(p: Prober<K>, b: seq<Bucket<K, V>>, k: K, n: nat)
    requires |b| > 0
  {
    Stops(p, b, k, n) && forall i: nat :: i < n ==> !Stops(p, b, k, i)
  }

  /** The loop of htab_get ends. */
  ghost predicate Halts<K(!new), V>(p: Prober<K>, b: seq<Bucket<K, V>>, k: K)
    requires |b| > 0
  {
    exists i: nat :: Stops(p, b, k, i)
  }

  /** The probe that leads to a stored key is the first one the search stops at. */
  lemma PresentStops<K(!new), V>(p: Prober<K>, b: seq<Bucket<K, V>>, k: K) returns (n: nat)
    requires Inv(p, b) && k in Abs(b)
    ensures n < MAX_PROBES && FirstStop(p, b, k, n) && Matches(p, b, k, n)
    ensures Slot(p, k, |b|, n) == SlotOf(b, k) && AtProbe(p, b, SlotOf(b, k), n)
  {
    var s := SlotOf(b, k);
    assert Reachable(p, b, s);
    n :| n < MAX_PROBES && AtProbe(p, b, s, n);
    forall i: nat | i < n ensures !Stops(p, b, k, i) {
      assert Slot(p, b[s].key, |b|, i) != s;
    }
  }

  /** Where the search stops decides membership, and within 32 probes for a stored key. */
  lemma FirstStopDecides<K(!new), V>(p: Prober<K>, b: seq<Bucket<K, V>>, k: K, n: nat)
    requires Inv(p, b) && FirstStop(p, b, k, n)
    ensures k in Abs(b) <==> Matches(p, b, k, n)
    ensures k in Abs(b) ==> n < MAX_PROBES && Slot(p, k, |b|, n) == SlotOf(b, k)
  {
    if Matches(p, b, k, n) {
      assert Holds(b, Slot(p, k, |b|, n), k);
    }
    if k in Abs(b) {
      var m := PresentStops(p, b, k);
      assert m == n;
    }
  }

  /** The search for k ends exactly when k is stored or its path meets a clear bucket. */
  lemma HaltsIff<K(!new), V>(p: Prober<K>, b: seq<Bucket<K, V>>, k: K)
    requires Inv(p, b)
    ensures Halts(p, b, k) <==> k in Abs(b) || exists i: nat :: b[Slot(p, k, |b|, i)].Clear?
  {
    if k in Abs(b) {
      var n := PresentStops(p, b, k);
    }
    if i: nat :| b[Slot(p, k, |b|, i)].Clear? {
      assert Stops(p, b, k, i);
    }
    if i: nat :| Stops(p, b, k, i) && Matches(p, b, k, i) {
      assert Holds(b, Slot(p, k, |b|, i), k);
    }
  }

  /** It need not end: in a table whose only bucket is a tombstone every search goes round for ever,
      whatever rand_r is. */
  lemma SearchCanLoop(p: Prober<nat>) returns (b: seq<Bucket<nat, nat>>)
    ensures b == [Deleted(p.h(0), 0, 7)] && Inv(p, b) && 0 !in Abs(b) && !Halts(p, b, 0)
  {
    b := [Deleted(p.h(0), 0, 7)];
    assert forall s: nat, k :: !Holds(b, s, k);
    forall i: nat ensures !Stops(p, b, 0, i) {
      assert Slot(p, 0, |b|, i) == 0;
    }
  }

  // ---------- htab_put ----------

  /** The first probe from i on whose bucket can take an entry, or 32. */
  function FirstFree<K(!new), V>(p: Prober<K>, b: seq<Bucket<K, V>>, k: K, i: nat := 0): (j: nat)
    requires |b| > 0 && i <= MAX_PROBES
    ensures i <= j <= MAX_PROBES
    ensures forall n: nat :: i <= n < j ==> b[Slot(p, k, |b|, n)].Occupied?
    ensures j < MAX_PROBES ==> !b[Slot(p, k, |b|, j)].Occupied?
    decreases MAX_PROBES - i
  {
    if i == MAX_PROBES || !b[Slot(p, k, |b|, i)].Occupied? then i else FirstFree(p, b, k, i + 1)
  }

  predicate Fits<K(!new), V>(p: Prober<K>, b: seq<Bucket<K, V>>, k: K)
    requires |b| > 0
  {
    FirstFree(p, b, k) < MAX_PROBES
  }

  function Put<K(!new), V>(p: Prober<K>, b: seq<Bucket<K, V>>, k: K, v: V): (b': seq<Bucket<K, V>>)
    requires |b| > 0
    ensures |b'| == |b|
  {
    var j := FirstFree(p, b, k);
    if j < MAX_PROBES then b[Slot(p, k, |b|, j) := Occupied(Seed(p, k, j), k, v)] else b
  }

  /** Filling a bucket that was not occupied, or emptying one without clearing it, leaves the
      entries elsewhere reachable. */
  lemma StaysReachable<K(!new), V>(p: Prober<K>, b: seq<Bucket<K, V>>, b': seq<Bucket<K, V>>, s: nat)
    requires |b| == |b'| && s < |b| && b[s].Occupied? && b'[s].Occupied?
    requires b'[s].hash == b[s].hash && b'[s].key == b[s].key
    requires forall t: nat :: t < |b| && !b[t].Clear? ==> !b'[t].Clear?
    requires Reachable(p, b, s)
    ensures Reachable(p, b', s)
  {
    var j: nat :| j < MAX_PROBES && AtProbe(p, b, s, j);
    assert AtProbe(p, b', s, j);
  }

  /** Putting an absent key that fits adds exactly that key; one that does not fit changes nothing. */
  lemma PutRefines<K(!new), V>(p: Prober<K>, b: seq<Bucket<K, V>>, k: K, v: V)
    requires Inv(p, b) && k !in Abs(b)
    ensures var b' := Put(p, b, k, v);
      Inv(p, b') && Abs(b') == if Fits(p, b, k) then Abs(b)[k := v] else Abs(b)
  {
    var j := FirstFree(p, b, k);
    if j < MAX_PROBES {
      var b' := Put(p, b, k, v);
      var s := Slot(p, k, |b|, j);
      assert forall t: nat :: t < |b| && b[t].Occupied? ==> Holds(b, t, b[t].key);
      assert UniqueKeys(b');
      forall t: nat | t < |b'| && b'[t].Occupied? ensures Reachable(p, b', t) {
        if t == s {
          assert AtProbe(p, b', s, j);
        } else {
          StaysReachable(p, b, b', t);
        }
      }
      MapAfterWrite(b, s, b'[s]);
    }
  }

  /** The map after one bucket that holds no other key takes an entry. */
  lemma MapAfterWrite<K(!new), V>(b: seq<Bucket<K, V>>, s: nat, e: Bucket<K, V>)
    requires s < |b| && e.Occupied? && UniqueKeys(b) && UniqueKeys(b[s := e])
    requires b[s].Occupied? ==> b[s].key == e.key
    ensures Abs(b[s := e]) == Abs(b)[e.key := e.val]
  {
    var b' := b[s := e];
    forall k | k in Abs(b') ensures k in Abs(b)[e.key := e.val] && Abs(b')[k] == Abs(b)[e.key := e.val][k] {
      var t: nat :| Holds(b', t, k);
      assert Abs(b')[b'[t].key] == b'[t].val;
      if t != s {
        assert b'[s] == e && b'[t] == b[t];
        assert k != e.key;
        assert Holds(b, t, k) && Abs(b)[b[t].key] == b[t].val;
      }
    }
    forall k | k in Abs(b)[e.key := e.val] ensures k in Abs(b') {
      if k == e.key {
        assert Holds(b', s, k);
      } else {
        var t: nat :| Holds(b, t, k);
        assert Holds(b', t, k);
      }
    }
  }

  /** htab_put does not look for the key. The entry it writes is the one a later htab_get returns
      if and only if the key was absent or the entry landed before the one already there. */
  lemma PutThenGet<K(!new), V>(p: Prober<K>, b: seq<Bucket<K, V>>, k: K, v: V) returns (n: nat)
    requires Inv(p, b) && Fits(p, b, k)
    ensures FirstStop(p, Put(p, b, k, v), k, n)
    ensures Matches(p, Put(p, b, k, v), k, n)
    ensures n == FirstFree(p, b, k)
      <==> k !in Abs(b) || forall i: nat :: i < FirstFree(p, b, k) ==> Slot(p, k, |b|, i) != SlotOf(b, k)
  {
    var j := FirstFree(p, b, k);
    forall i: nat | i < j
      ensures Stops(p, Put(p, b, k, v), k, i) <==> k in Abs(b) && Slot(p, k, |b|, i) == SlotOf(b, k) && Stops(p, b, k, i)
    {
      OldStops(p, b, k, v, i);
    }
    n := j;
    if k in Abs(b) {
      var m := PresentStops(p, b, k);
      n := if m < j then m else j;
    }
  }

  /** Before the written entry, the search stops only at an entry of the same key already there. */
  lemma OldStops<K(!new), V>(p: Prober<K>, b: seq<Bucket<K, V>>, k: K, v: V, i: nat)
    requires Inv(p, b) && Fits(p, b, k) && i < FirstFree(p, b, k)
    ensures Stops(p, Put(p, b, k, v), k, i)
      <==> k in Abs(b) && Slot(p, k, |b|, i) == SlotOf(b, k) && Stops(p, b, k, i)
  {
    var s := Slot(p, k, |b|, i);
    assert b[s].Occupied? && Put(p, b, k, v)[s] == b[s];
    assert Matches(p, b, k, i) ==> Holds(b, s, k);
  }

  // ---------- htab_update on a stored key, htab_del ----------

  function SetVal<K(!new), V>(b: seq<Bucket<K, V>>, s: nat, v: V): seq<Bucket<K, V>>
    requires s < |b| && b[s].Occupied?
  {
    b[s := Occupied(b[s].hash, b[s].key, v)]
  }

  function Bury<K(!new), V>(b: seq<Bucket<K, V>>, s: nat): seq<Bucket<K, V>>
    requires s < |b| && b[s].Occupied?
  {
    b[s := Deleted(b[s].hash, b[s].key, b[s].val)]
  }

  lemma SetValRefines<K(!new), V>(p: Prober<K>, b: seq<Bucket<K, V>>, s: nat, v: V)
    requires Inv(p, b) && s < |b| && b[s].Occupied?
    ensures Inv(p, SetVal(b, s, v)) && Abs(SetVal(b, s, v)) == Abs(b)[b[s].key := v]
  {
    var b' := SetVal(b, s, v);
    assert UniqueKeys(b');
    forall t: nat | t < |b'| && b'[t].Occupied? ensures Reachable(p, b', t) {
      StaysReachable(p, b, b', t);
    }
    MapAfterWrite(b, s, b'[s]);
  }

  lemma BuryRefines<K(!new), V>(p: Prober<K>, b: seq<Bucket<K, V>>, s: nat)
    requires Inv(p, b) && s < |b| && b[s].Occupied?
    ensures Inv(p, Bury(b, s)) && Abs(Bury(b, s)) == Abs(b) - {b[s].key}
  {
    var b' := Bury(b, s);
    assert UniqueKeys(b');
    forall t: nat | t < |b'| && b'[t].Occupied? ensures Reachable(p, b', t) {
      StaysReachable(p, b, b', t);
    }
    forall k | k in Abs(b) - {b[s].key} ensures k in Abs(b') && Abs(b')[k] == Abs(b)[k] {
      var t: nat :| Holds(b, t, k);
      assert Holds(b', t, k);
    }
    forall k | k in Abs(b') ensures k in Abs(b) - {b[s].key} {
      var t: nat :| Holds(b', t, k);
      assert Holds(b, t, k);
    }
  }

  // ---------- runs ----------

  datatype Op<K, !V> =
    | Insert(key: K, val: V)
    | Update(key: K, default: V, mutator: V -> V)
    | Delete(key: K)

  /** A caller of htab_put must know the key absent; the others need the search to end. */
  ghost predicate Enabled<K(!new), V>(p: Prober<K>, b: seq<Bucket<K, V>>, op: Op<K, V>)
    requires Inv(p, b)
  {
    if op.Insert? then op.key !in Abs(b) else Halts(p, b, op.key)
  }

  ghost function Perform<K(!new), V>(p: Prober<K>, b: seq<Bucket<K, V>>, op: Op<K, V>): seq<Bucket<K, V>>
    requires Inv(p, b)
  {
    match op
    case Insert(k, v) => Put(p, b, k, v)
    case Update(k, v, f) =>
      if k in Abs(b) then SetVal(b, SlotOf(b, k), f(Abs(b)[k])) else Put(p, b, k, v)
    case Delete(k) =>
      if k in Abs(b) then Bury(b, SlotOf(b, k)) else b
  }

  /** The same operation on a plain map; `fits` says whether a new key found a place. */
  ghost function Intended<K, V>(m: map<K, V>, op: Op<K, V>, fits: bool): map<K, V> {
    match op
    case Insert(k, v) => if fits then m[k := v] else m
    case Update(k, v, f) => if k in m then m[k := f(m[k])] else if fits then m[k := v] else m
    case Delete(k) => m - {k}
  }

  lemma PerformRefines<K(!new), V>(p: Prober<K>, b: seq<Bucket<K, V>>, op: Op<K, V>)
    requires Inv(p, b) && Enabled(p, b, op)
    ensures Inv(p, Perform(p, b, op)) && |Perform(p, b, op)| == |b|
    ensures Abs(Perform(p, b, op)) == Intended(Abs(b), op, Fits(p, b, op.key))
  {
    match op
    case Insert(k, v) => PutRefines(p, b, k, v);
    case Update(k, v, f) =>
      if k in Abs(b) { SetValRefines(p, b, SlotOf(b, k), f(Abs(b)[k])); } else { PutRefines(p, b, k, v); }
    case Delete(k) =>
      if k in Abs(b) { BuryRefines(p, b, SlotOf(b, k)); } else { assert Abs(b) - {k} == Abs(b); }
  }

  /** Every operation of the run is enabled when its turn comes. */
  ghost predicate Legal<K(!new), V>(p: Prober<K>, b: seq<Bucket<K, V>>, ops: seq<Op<K, V>>)
    requires Inv(p, b)
    decreases |ops|
  {
    if ops == [] then true else
    Enabled(p, b, ops[0]) && (PerformRefines(p, b, ops[0]); Legal(p, Perform(p, b, ops[0]), ops[1..]))
  }

  /** The buckets after a run. */
  ghost function End<K(!new), V>(p: Prober<K>, b: seq<Bucket<K, V>>, ops: seq<Op<K, V>>): seq<Bucket<K, V>>
    requires Inv(p, b) && Legal(p, b, ops)
    decreases |ops|
  {
    if ops == [] then b else (PerformRefines(p, b, ops[0]); End(p, Perform(p, b, ops[0]), ops[1..]))
  }

  /** For each operation of a run, whether a new key would have found a place. */
  ghost function Fitting<K(!new), V>(p: Prober<K>, b: seq<Bucket<K, V>>, ops: seq<Op<K, V>>): (fits: seq<bool>)
    requires Inv(p, b) && Legal(p, b, ops)
    ensures |fits| == |ops|
    decreases |ops|
  {
    if ops == [] then [] else
    (PerformRefines(p, b, ops[0]); [Fits(p, b, ops[0].key)] + Fitting(p, Perform(p, b, ops[0]), ops[1..]))
  }

  /** The same run on a plain map. */
  ghost function MapEnd<K, V>(m: map<K, V>, ops: seq<Op<K, V>>, fits: seq<bool>): map<K, V>
    requires |fits| == |ops|
    decreases |ops|
  {
    if ops == [] then m else MapEnd(Intended(m, ops[0], fits[0]), ops[1..], fits[1..])
  }

  /** Every run of the table is the same run of a map, and keeps the invariant. */
  lemma {:induction false} RunRefines<K(!new), V>(p: Prober<K>, b: seq<Bucket<K, V>>, ops: seq<Op<K, V>>)
    requires Inv(p, b) && Legal(p, b, ops)
    ensures Inv(p, End(p, b, ops)) && |End(p, b, ops)| == |b|
    ensures Abs(End(p, b, ops)) == MapEnd(Abs(b), ops, Fitting(p, b, ops))
    decreases |ops|
  {
    if ops != [] {
      PerformRefines(p, b, ops[0]);
      RunRefines(p, Perform(p, b, ops[0]), ops[1..]);
    }
  }

  /** What htab_init leaves is a table of the empty map. */
  lemma ClearTable<K(!new), V>(p: Prober<K>, b: seq<Bucket<K, V>>)
    requires |b| > 0 && forall s: nat :: s < |b| ==> b[s].Clear?
    ensures Inv(p, b) && Abs(b) == map[]
  {
    assert UniqueKeys(b);
    assert forall s: nat, k :: !Holds(b, s, k);
  }

  /** After any run from the empty table, a search that ends returns the map's answer, and a stored
      key is found within 32 probes. */
  lemma SearchAfterRun<K(!new), V>(p: Prober<K>, b: seq<Bucket<K, V>>, ops: seq<Op<K, V>>, k: K, n: nat)
    requires Inv(p, b) && Abs(b) == map[] && Legal(p, b, ops)
    requires |End(p, b, ops)| > 0 && FirstStop(p, End(p, b, ops), k, n)
    ensures var m := MapEnd(map[], ops, Fitting(p, b, ops)); var e := End(p, b, ops);
      && (k in m <==> Matches(p, e, k, n))
      && (k in m ==> n < MAX_PROBES && e[Slot(p, k, |e|, n)].val == m[k])
  {
    RunRefines(p, b, ops);
    FirstStopDecides(p, End(p, b, ops), k, n);
  }
}
