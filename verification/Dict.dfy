/** dict_t of src/hash.c: a table that grows. */
module Dict {
  import opened Wrappers
  import opened ProbeTable
  import opened Rehashing
  import HashTable

  /** The settings a dictionary keeps across its tables: the hash function takes the key size. */
  datatype Config<!K> = Config(h: (K, nat) -> uint32, out: uint32 -> nat, next: uint32 -> uint32,
                               sizeOf: Option<K -> nat>, maxLoadFactor: real)
  {
    function ProberFor(keySz: nat): Prober<K> {
      Prober(k => h(k, keySz), out, next)
    }
  }

  /** Doubled until it is at least `wanted` (src/hash.c:280-284). */
  function Grown(keySz: nat, wanted: nat): (r: nat)
    requires keySz > 0 || wanted == 0
    ensures r >= wanted && r >= keySz
    ensures wanted <= keySz ==> r == keySz
    ensures wanted > keySz ==> r < 2 * wanted
    decreases wanted - keySz
  {
    if wanted > keySz then Grown(keySz * 2, wanted) else keySz
  }

  function ClearBuckets<K, V>(cap: nat): seq<Bucket<K, V>> { seq(cap, _ => Clear) }

  /** The table after r turns of the retry loop: each turn rehashes into one four times as large. */
  function Retried<K(!new), V>(p: Prober<K>, b: seq<Bucket<K, V>>, cap: nat, r: nat): (t: seq<Bucket<K, V>>)
    requires cap > 0 && |b| > 0
    ensures |t| > 0
  {
    if r == 0 then b else
    Rehash(p, ClearBuckets(Quadrupled(cap, r)), Retried(p, b, cap, r - 1))
  }

  function Quadrupled(cap: nat, r: nat): (c: nat)
    requires cap > 0
    ensures c >= cap
  {
    if r == 0 then cap else Quadrupled(cap, r - 1) * 4
  }

  function Power(base: nat, n: nat): nat { if n == 0 then 1 else base * Power(base, n - 1) }

  lemma {:induction false} QuadrupledIs(cap: nat, r: nat)
    requires cap > 0
    ensures Quadrupled(cap, r) == cap * Power(4, r)
  {
    if r > 0 { QuadrupledIs(cap, r - 1); }
  }

  lemma Regrouped(a: nat, b: nat, c: nat)
    ensures (a * b) * c == a * (b * c)
  {
  }

  /** The key size is doubled as often as needed and no more often. */
  lemma {:induction false} GrownDoubles(keySz: nat, wanted: nat) returns (n: nat)
    requires keySz > 0
    ensures Grown(keySz, wanted) == keySz * Power(2, n) && (n > 0 ==> keySz * Power(2, n - 1) < wanted)
    decreases wanted - keySz
  {
    n := 0;
    if wanted > keySz {
      var m := GrownDoubles(keySz * 2, wanted);
      Regrouped(keySz, 2, Power(2, m));
      if m > 0 { Regrouped(keySz, 2, Power(2, m - 1)); }
      n := m + 1;
    }
  }

  /** No turn of the retry loop drops an entry. */
  ghost predicate KeepsAll<K(!new), V>(p: Prober<K>, b: seq<Bucket<K, V>>, cap: nat, r: nat)
    requires cap > 0 && |b| > 0
  {
    r == 0 || (KeepsAll(p, b, cap, r - 1) && Lost(p, ClearBuckets(Quadrupled(cap, r)), Retried(p, b, cap, r - 1)) == {})
  }

  ghost predicate Submap<K, V>(m: map<K, V>, n: map<K, V>) {
    m.Keys <= n.Keys && forall k :: k in m ==> m[k] == n[k]
  }

  lemma RehashShrinks<K(!new), V>(p: Prober<K>, b: seq<Bucket<K, V>>, cap: nat)
    requires cap > 0 && UniqueKeys(b)
    ensures var t := Rehash(p, ClearBuckets(cap), b);
      && Inv(p, t) && Submap(Abs(t), Abs(b))
      && (Abs(t) == Abs(b) <==> Lost(p, ClearBuckets(cap), b) == {})
  {
    RehashIntoClear(p, ClearBuckets<K, V>(cap), b);
  }

  /** Retrying never adds or changes an entry, and keeps all of them exactly when no turn drops one. */
  lemma {:induction false} RetriedRefines<K(!new), V>(p: Prober<K>, b: seq<Bucket<K, V>>, cap: nat, r: nat)
    requires cap > 0 && Inv(p, b)
    ensures Inv(p, Retried(p, b, cap, r)) && Submap(Abs(Retried(p, b, cap, r)), Abs(b))
    ensures KeepsAll(p, b, cap, r) <==> Abs(Retried(p, b, cap, r)) == Abs(b)
  {
    if r > 0 {
      RetriedRefines(p, b, cap, r - 1);
      var before := Retried(p, b, cap, r - 1);
      RehashShrinks(p, before, Quadrupled(cap, r));
      SubmapChain(Abs(Retried(p, b, cap, r)), Abs(before), Abs(b));
    }
  }

  lemma RetriedLength<K(!new), V>(p: Prober<K>, b: seq<Bucket<K, V>>, cap: nat, r: nat)
    requires |b| == cap > 0
    ensures |Retried(p, b, cap, r)| == cap * Power(4, r)
  {
    if r > 0 { QuadrupledIs(cap, r); }
  }

  lemma SubmapChain<K, V>(m: map<K, V>, n: map<K, V>, o: map<K, V>)
    requires Submap(m, n) && Submap(n, o)
    ensures Submap(m, o) && (m == o <==> m == n && n == o)
  {
  }

  lemma SubmapCard<K, V>(m: map<K, V>, n: map<K, V>)
    requires Submap(m, n)
    ensures |m| <= |n|
  {
    SubsetCard(m.Keys, n.Keys);
  }

  lemma {:induction false} SubsetCard<T>(a: set<T>, b: set<T>)
    requires a <= b
    ensures |a| <= |b|
  {
    if x :| x in a { SubsetCard(a - {x}, b - {x}); }
  }

  /** The table t is what r turns of the retry loop make of b0, and no table before it took the key. */
  ghost predicate AfterRetries<K(!new), V>(p: Prober<K>, b0: seq<Bucket<K, V>>, cap: nat, r: nat, key: K,
                                           t: seq<Bucket<K, V>>)
  {
    && |b0| > 0 && cap > 0
    && t == Retried(p, b0, cap, r)
    && forall i: nat :: i < r ==> !Fits(p, Retried(p, b0, cap, i), key)
  }

  lemma NoRetries<K(!new), V>(p: Prober<K>, b0: seq<Bucket<K, V>>, cap: nat, key: K)
    requires |b0| > 0 && cap > 0
    ensures AfterRetries(p, b0, cap, 0, key, b0) && Quadrupled(cap, 0) == cap
  {
  }

  lemma OneMoreRetry<K(!new), V>(p: Prober<K>, b0: seq<Bucket<K, V>>, cap: nat, r: nat, key: K, t: seq<Bucket<K, V>>)
    requires AfterRetries(p, b0, cap, r, key, t) && |t| > 0 && !Fits(p, t, key)
    ensures AfterRetries(p, b0, cap, r + 1, key, Rehash(p, ClearBuckets(Quadrupled(cap, r) * 4), t))
    ensures Quadrupled(cap, r + 1) == Quadrupled(cap, r) * 4
  {
  }

  lemma NoPlace<K(!new), V>(p: Prober<K>, t: seq<Bucket<K, V>>, key: K, val: V)
    requires |t| > 0 && !Fits(p, t, key)
    ensures Put(p, t, key, val) == t
  {
  }

  /** The map after dict_put, given the table t its last htab_put ran on: never more than the old entries
      and the new one, and exactly those if and only if no rehash lost an entry and the put succeeded. */
  lemma PutOutcome<K(!new), V>(p: Prober<K>, b: seq<Bucket<K, V>>, rehash: bool, cap: nat, b0: seq<Bucket<K, V>>,
                               r: nat, key: K, val: V, t: seq<Bucket<K, V>>)
    requires UniqueKeys(b) && key !in Abs(b) && cap > 0
    requires b0 == (if rehash then Rehash(p, ClearBuckets(cap), b) else b) && Inv(p, b0)
    requires AfterRetries(p, b0, cap, r, key, t)
    ensures Inv(p, t) && Inv(p, Put(p, t, key, val)) && Submap(Abs(Put(p, t, key, val)), Abs(b)[key := val])
    ensures Abs(Put(p, t, key, val)) == Abs(b)[key := val] <==>
      Fits(p, t, key) && KeepsAll(p, b0, cap, r) && (rehash ==> Lost(p, ClearBuckets(cap), b) == {})
  {
    if rehash { RehashShrinks(p, b, cap); }
    RetriedRefines(p, b0, cap, r);
    SubmapChain(Abs(t), Abs(b0), Abs(b));
    PutRefines(p, t, key, val);
    WithKey(Abs(t), Abs(b), key, val, Abs(Put(p, t, key, val)), Fits(p, t, key));
  }

  lemma WithKey<K, V>(m: map<K, V>, n: map<K, V>, k: K, v: V, m': map<K, V>, fits: bool)
    requires Submap(m, n) && k !in n && m' == if fits then m[k := v] else m
    ensures Submap(m', n[k := v]) && (m' == n[k := v] <==> fits && m == n)
  {
    if m' == n[k := v] {
      assert k in m';
      assert m == m' - {k} == n;
    }
  }

  /** The load bound of a table, with room for at least one entry. */
  ghost predicate WithinLoad(load: nat, cap: nat, max: real) {
    1.0 <= max * cap as real && load as real <= max * cap as real
  }

  /** The smallest capacity dict_put settles on. */
  function LeastCap(load: nat, cap: nat, max: real): nat
    requires cap > 0
  {
    if (load + 1) as real / cap as real > max then cap * 2 else cap
  }

  lemma LoadKept(load: nat, cap: nat, max: real, cap': nat, load': nat)
    requires cap > 0 && WithinLoad(load, cap, max) && load' <= load + 1
    requires cap' >= LeastCap(load, cap, max)
    ensures WithinLoad(load', cap', max)
  {
    RealLoadKept(load as real, cap as real, max, cap' as real, load' as real);
  }

  lemma RealLoadKept(load: real, cap: real, max: real, cap': real, load': real)
    requires cap > 0.0 && 1.0 <= max * cap && load <= max * cap && load' <= load + 1.0
    requires cap' >= if (load + 1.0) / cap > max then cap + cap else cap
    ensures 1.0 <= max * cap' && load' <= max * cap'
  {
    if max <= 0.0 { Scaled(max, 0.0, cap); }
    Scaled(cap, cap', max);
    if (load + 1.0) / cap > max {
      Scaled(cap + cap, cap', max);
      calc {
        load';
      <= max * cap + max * cap;
      == (cap + cap) * max;
      <= cap' * max;
      == max * cap';
      }
    } else {
      Scaled((load + 1.0) / cap, max, cap);
      calc {
        load';
      <= (load + 1.0) / cap * cap;
      <= max * cap;
      == cap * max;
      <= cap' * max;
      == max * cap';
      }
    }
  }

  lemma Scaled(x: real, y: real, z: real)
    requires x <= y && z >= 0.0
    ensures x * z <= y * z
  {
  }

  // ---------- dict_put as a function ----------

  /** A dictionary as a value: its settings, its key size, and the buckets of its table. */
  datatype Dictionary<!K, V> = Dictionary(conf: Config<K>, keySz: nat, buf: seq<Bucket<K, V>>)

  /** Its table is sound, and its key size is one that doubling enlarges. */
  ghost predicate Sound<K(!new), V>(d: Dictionary<K, V>) {
    Inv(d.conf.ProberFor(d.keySz), d.buf) && d.keySz > 0
  }

  /** One more entry would pass the load factor (src/hash.c:286-287). */
  ghost predicate TooFull<K(!new), V>(d: Dictionary<K, V>)
    requires Sound(d)
  {
    (|Abs(d.buf)| + 1) as real / |d.buf| as real > d.conf.maxLoadFactor
  }

  function WantedKeySz<K, V>(d: Dictionary<K, V>, key: K): nat {
    if d.conf.sizeOf.Some? then d.conf.sizeOf.value(key) else d.keySz
  }

  /** The key size and the capacity dict_put settles on, and the table it first tries to put into. */
  function PlannedKeySz<K, V>(d: Dictionary<K, V>, key: K): (r: nat)
    requires d.keySz > 0
    ensures r >= d.keySz && r >= WantedKeySz(d, key)
  {
    Grown(d.keySz, WantedKeySz(d, key))
  }

  function PlannedProber<K, V>(d: Dictionary<K, V>, key: K): Prober<K>
    requires d.keySz > 0
  {
    d.conf.ProberFor(PlannedKeySz(d, key))
  }

  ghost function PlannedCap<K(!new), V>(d: Dictionary<K, V>): (cap: nat)
    requires Sound(d)
    ensures cap > 0
  {
    if TooFull(d) then |d.buf| * 2 else |d.buf|
  }

  ghost predicate Rehashes<K(!new), V>(d: Dictionary<K, V>, key: K)
    requires Sound(d)
  {
    d.keySz < WantedKeySz(d, key) || TooFull(d)
  }

  ghost function Prepared<K(!new), V>(d: Dictionary<K, V>, key: K): (b: seq<Bucket<K, V>>)
    requires Sound(d)
    ensures |b| > 0
  {
    if Rehashes(d, key) then Rehash(PlannedProber(d, key), ClearBuckets(PlannedCap(d)), d.buf) else d.buf
  }

  /** The table after r retries. */
  ghost function TableAfter<K(!new), V>(d: Dictionary<K, V>, key: K, r: nat): (t: seq<Bucket<K, V>>)
    requires Sound(d)
    ensures |t| > 0
  {
    Retried(PlannedProber(d, key), Prepared(d, key), PlannedCap(d), r)
  }

  /** No table before the r-th retry takes the key. */
  ghost predicate Tried<K(!new), V>(d: Dictionary<K, V>, key: K, r: nat)
    requires Sound(d)
  {
    forall i: nat :: i < r ==> !Fits(PlannedProber(d, key), TableAfter(d, key, i), key)
  }

  /** dict_put comes to its end with r retries: the table after them is the first to take the key. */
  ghost predicate Settled<K(!new), V>(d: Dictionary<K, V>, key: K, r: nat)
    requires Sound(d)
  {
    Tried(d, key, r) && Fits(PlannedProber(d, key), TableAfter(d, key, r), key)
  }

  /** dict_put, given up or at its end after r retries. */
  ghost function PutIn<K(!new), V>(d: Dictionary<K, V>, key: K, val: V, r: nat): Dictionary<K, V>
    requires Sound(d)
  {
    Dictionary(d.conf, PlannedKeySz(d, key), Put(PlannedProber(d, key), TableAfter(d, key, r), key, val))
  }

  /** No rehash of the call loses an entry. */
  ghost predicate Lossless<K(!new), V>(d: Dictionary<K, V>, key: K, r: nat)
    requires Sound(d)
  {
    && (Rehashes(d, key) ==> Lost(PlannedProber(d, key), ClearBuckets(PlannedCap(d)), d.buf) == {})
    && KeepsAll(PlannedProber(d, key), Prepared(d, key), PlannedCap(d), r)
  }

  lemma PreparedSound<K(!new), V>(d: Dictionary<K, V>, key: K)
    requires Sound(d)
    ensures Inv(PlannedProber(d, key), Prepared(d, key)) && UniqueKeys(d.buf) && |d.buf| > 0
    ensures |Prepared(d, key)| == PlannedCap(d)
    ensures Prepared(d, key) ==
      if Rehashes(d, key) then Rehash(PlannedProber(d, key), ClearBuckets(PlannedCap(d)), d.buf) else d.buf
  {
    if Rehashes(d, key) { RehashShrinks(PlannedProber(d, key), d.buf, PlannedCap(d)); }
  }

  lemma TriedRetries<K(!new), V>(d: Dictionary<K, V>, key: K, r: nat)
    requires Sound(d) && Tried(d, key, r)
    ensures AfterRetries(PlannedProber(d, key), Prepared(d, key), PlannedCap(d), r, key, TableAfter(d, key, r))
  {
    hide Sound, PlannedProber, Prepared, PlannedCap, Retried, Fits;
    PutInParts(d, key, r);
  }

  /** What a put goes by. */
  lemma PutInParts<K(!new), V>(d: Dictionary<K, V>, key: K, r: nat)
    requires Sound(d)
    ensures forall i: nat :: TableAfter(d, key, i) == Retried(PlannedProber(d, key), Prepared(d, key), PlannedCap(d), i)
    ensures PlannedProber(d, key) == d.conf.ProberFor(PlannedKeySz(d, key)) && PlannedKeySz(d, key) > 0
    ensures Settled(d, key, r) <==> Tried(d, key, r) && Fits(PlannedProber(d, key), TableAfter(d, key, r), key)
    ensures Lossless(d, key, r) <==>
      && (Rehashes(d, key) ==> Lost(PlannedProber(d, key), ClearBuckets(PlannedCap(d)), d.buf) == {})
      && KeepsAll(PlannedProber(d, key), Prepared(d, key), PlannedCap(d), r)
  {
    hide Prepared, Rehashes, PlannedCap, Retried, Tried, Fits, Lost, KeepsAll, Inv, Grown;
  }

  lemma PutInIs<K(!new), V>(d: Dictionary<K, V>, key: K, val: V, r: nat)
    requires Sound(d)
    ensures var d' := PutIn(d, key, val, r);
      && d'.conf == d.conf && d'.keySz == PlannedKeySz(d, key) > 0
      && d'.buf == Put(PlannedProber(d, key), TableAfter(d, key, r), key, val)
      && |d'.buf| == |TableAfter(d, key, r)|
      && (Sound(d') <==> Inv(PlannedProber(d, key), d'.buf))
  {
    hide Prepared, TableAfter, Inv, Put, Grown;
  }

  /** What dict_put of an absent key does to the map: it never holds an entry beyond the old ones and the
      new one, and holds exactly those if and only if the put succeeded and no rehash lost an entry. */
  lemma PutInRefines<K(!new), V>(d: Dictionary<K, V>, key: K, val: V, r: nat)
    requires Sound(d) && UniqueKeys(d.buf) && key !in Abs(d.buf) && Tried(d, key, r)
    ensures Sound(PutIn(d, key, val, r)) && UniqueKeys(PutIn(d, key, val, r).buf)
    ensures Submap(Abs(PutIn(d, key, val, r).buf), Abs(d.buf)[key := val])
    ensures Abs(PutIn(d, key, val, r).buf) == Abs(d.buf)[key := val] <==> Settled(d, key, r) && Lossless(d, key, r)
  {
    var p := PlannedProber(d, key);
    hide *;
    PreparedSound(d, key);
    TriedRetries(d, key, r);
    PutInParts(d, key, r);
    PutInIs(d, key, val, r);
    PutOutcome(p, d.buf, Rehashes(d, key), PlannedCap(d), Prepared(d, key), r, key, val, TableAfter(d, key, r));
    InvUnique(p, PutIn(d, key, val, r).buf);
  }

  /** The capacity after dict_put is the planned one, times four for every retry. */
  lemma PutInLength<K(!new), V>(d: Dictionary<K, V>, key: K, val: V, r: nat)
    requires Sound(d)
    ensures |PutIn(d, key, val, r).buf| == PlannedCap(d) * Power(4, r)
  {
    var p := PlannedProber(d, key);
    hide *;
    PreparedSound(d, key);
    PutInParts(d, key, r);
    PutInIs(d, key, val, r);
    RetriedLength(p, Prepared(d, key), PlannedCap(d), r);
  }

  lemma TooFullBy<K(!new), V>(d: Dictionary<K, V>, load: nat, cap: nat)
    requires Sound(d) && UniqueKeys(d.buf) && load == |Abs(d.buf)| && cap == |d.buf| > 0
    ensures TooFull(d) <==> (load + 1) as real / cap as real > d.conf.maxLoadFactor
  {
    hide Inv, Abs, UniqueKeys;
  }

  lemma TooFullIs<K(!new), V>(d: Dictionary<K, V>, load: nat, cap: nat)
    requires Sound(d) && UniqueKeys(d.buf) && load == |Abs(d.buf)| && cap == |d.buf| > 0
    ensures TooFull(d) <==> (load + 1) as real > d.conf.maxLoadFactor * cap as real
  {
    hide *;
    TooFullBy(d, load, cap);
    CapRule(load, cap, d.conf.maxLoadFactor);
  }

  /** The planned capacity is the old one while the load stays within the load factor, and twice the old one
      otherwise. */
  lemma PlannedCapIs<K(!new), V>(d: Dictionary<K, V>, load: nat, cap: nat)
    requires Sound(d) && UniqueKeys(d.buf) && load == |Abs(d.buf)| && cap == |d.buf| > 0
    ensures PlannedCap(d) == if (load + 1) as real <= d.conf.maxLoadFactor * cap as real then cap else 2 * cap
    ensures PlannedCap(d) == LeastCap(load, cap, d.conf.maxLoadFactor)
  {
    hide Inv, Abs, UniqueKeys, TooFull, LeastCap, Sound;
    TooFullIs(d, load, cap);
    CapRule(load, cap, d.conf.maxLoadFactor);
  }

  lemma CapRule(load: nat, cap: nat, max: real)
    requires cap > 0
    ensures (load + 1) as real / cap as real > max <==> (load + 1) as real > max * cap as real
    ensures LeastCap(load, cap, max) == if (load + 1) as real <= max * cap as real then cap else 2 * cap
  {
    Quotient((load + 1) as real, cap as real, max);
  }

  lemma Quotient(x: real, y: real, z: real)
    requires y > 0.0
    ensures x / y > z <==> x > z * y
  {
    assert x == x / y * y;
    if x / y > z { assert x / y * y > z * y; } else { Scaled(x / y, z, y); }
  }

  /** A put keeps the load within the load factor. */
  lemma PutInLoad<K(!new), V>(d: Dictionary<K, V>, key: K, val: V, r: nat)
    requires Sound(d) && UniqueKeys(d.buf) && key !in Abs(d.buf) && Tried(d, key, r) && |d.buf| > 0
    requires WithinLoad(|Abs(d.buf)|, |d.buf|, d.conf.maxLoadFactor)
    ensures var d' := PutIn(d, key, val, r); UniqueKeys(d'.buf) && WithinLoad(|Abs(d'.buf)|, |d'.buf|, d.conf.maxLoadFactor)
  {
    PlannedCapIs(d, |Abs(d.buf)|, |d.buf|);
    hide *;
    var d' := PutIn(d, key, val, r);
    PutInRefines(d, key, val, r);
    AtMostOneMore(Abs(d'.buf), Abs(d.buf), key, val);
    PutInLength(d, key, val, r);
    PowerGrows(PlannedCap(d), r);
    LoadKept(|Abs(d.buf)|, |d.buf|, d.conf.maxLoadFactor, |d'.buf|, |Abs(d'.buf)|);
  }

  /** The key is short enough, the load stays within the load factor, and the key fits. */
  ghost predicate NoNeed<K(!new), V>(d: Dictionary<K, V>, key: K)
    requires Sound(d)
  {
    && (d.conf.sizeOf.Some? ==> d.conf.sizeOf.value(key) <= d.keySz)
    && (|Abs(d.buf)| + 1) as real <= d.conf.maxLoadFactor * |d.buf| as real
    && Fits(d.conf.ProberFor(d.keySz), d.buf, key)
  }

  /** Then dict_put neither rehashes nor retries. */
  lemma StaysPut<K(!new), V>(d: Dictionary<K, V>, key: K, r: nat)
    requires Sound(d) && UniqueKeys(d.buf) && |d.buf| > 0 && Tried(d, key, r) && NoNeed(d, key)
    ensures !Rehashes(d, key) && Settled(d, key, 0) && r == 0
  {
    NoNeedMeans(d, key, |Abs(d.buf)|, |d.buf|);
    hide *;
    PreparedSound(d, key);
    PutInParts(d, key, 0);
    FirstTable(d, key);
    TriedOnce(d, key, r);
  }

  lemma NoNeedMeans<K(!new), V>(d: Dictionary<K, V>, key: K, load: nat, cap: nat)
    requires Sound(d) && NoNeed(d, key) && UniqueKeys(d.buf) && load == |Abs(d.buf)| && cap == |d.buf| > 0
    ensures !Rehashes(d, key) && PlannedProber(d, key) == d.conf.ProberFor(d.keySz)
    ensures Fits(PlannedProber(d, key), d.buf, key)
  {
    hide Inv, Abs, UniqueKeys, Fits, TooFull;
    TooFullIs(d, load, cap);
  }

  lemma FirstTable<K(!new), V>(d: Dictionary<K, V>, key: K)
    requires Sound(d)
    ensures TableAfter(d, key, 0) == Prepared(d, key)
  {
    hide Prepared, Inv;
  }

  lemma TriedOnce<K(!new), V>(d: Dictionary<K, V>, key: K, r: nat)
    requires Sound(d)
    ensures Tried(d, key, 0)
    ensures Tried(d, key, r) && Fits(PlannedProber(d, key), TableAfter(d, key, 0), key) ==> r == 0
  {
    hide TableAfter, Inv, Fits;
  }

  lemma PowerGrows(cap: nat, r: nat)
    requires cap > 0
    ensures cap * Power(4, r) >= cap
  {
    QuadrupledIs(cap, r);
  }

  class Dict<K(!new, ==), V> {
    const conf: Config<K>
    var htab: HashTable.HashTable<K, V>
    var keySz: nat

    ghost predicate Valid()
      reads this, htab, htab.buf
    {
      htab.Valid() && htab.p == conf.ProberFor(keySz)
    }

    ghost function Entries(): map<K, V>
      requires Valid()
      reads this, htab, htab.buf
    {
      htab.Entries()
    }

    /** The dictionary as a value. */
    ghost function Value(): Dictionary<K, V>
      reads this, htab, htab.buf
    {
      Dictionary(conf, keySz, htab.buf[..])
    }

    constructor (conf: Config<K>, keySz: nat, bufCap: nat)
      requires bufCap > 0
      ensures Valid() && Entries() == map[] && this.conf == conf && this.keySz == keySz
      ensures htab.buf.Length == bufCap && fresh(htab) && fresh(htab.buf)
    {
      this.conf, this.keySz := conf, keySz;
      htab := new HashTable.HashTable<K, V>(conf.ProberFor(keySz), bufCap);
    }

    method Get(key: K) returns (r: Option<nat>)
      requires Valid() && Halts(htab.p, htab.buf[..], key)
      ensures r.Some? <==> key in Entries()
      ensures r.Some? ==> r.value < htab.buf.Length && htab.buf[r.value].Occupied? && htab.buf[r.value].val == Entries()[key]
    {
      r := htab.Get(key);
    }

    /** A table of the given capacity and key size takes the place of the present one. */
    method ForceRehash3(newBufCap: nat, newKeySz: nat)
      requires Valid() && newBufCap > 0
      modifies this`htab, this`keySz
      ensures Valid() && keySz == newKeySz && fresh(htab) && fresh(htab.buf)
      ensures htab.buf[..] == Rehash(conf.ProberFor(newKeySz), ClearBuckets(newBufCap), old(htab.buf[..]))
    {
      var fresh_ := new HashTable.HashTable<K, V>(conf.ProberFor(newKeySz), newBufCap);
      assert fresh_.buf[..] == ClearBuckets(newBufCap);
      htab.RehashInto(fresh_);
      htab, keySz := fresh_, newKeySz;
    }

    lemma IsSound()
      requires Valid()
      ensures Value() == Dictionary(conf, keySz, htab.buf[..]) && (keySz > 0 ==> Sound(Value()))
      ensures UniqueKeys(Value().buf) && htab.bufLoad == |Abs(Value().buf)| && Entries() == Abs(Value().buf)
      ensures htab.p == conf.ProberFor(keySz) && htab.buf.Length == |htab.buf[..]| > 0
    {
    }

    /** The first half of dict_put: a rehash when the key is too long or the table too full. */
    method Prepare(key: K) returns (newBufCap: nat)
      requires Valid() && key !in Entries() && keySz > 0 && Sound(Value())
      modifies this`htab, this`keySz
      ensures Valid() && key !in Entries()
      ensures keySz == PlannedKeySz(old(Value()), key) && newBufCap == PlannedCap(old(Value()))
      ensures htab.buf[..] == Prepared(old(Value()), key)
      ensures if Rehashes(old(Value()), key) then fresh(htab) && fresh(htab.buf)
        else htab == old(htab) && htab.buf == old(htab.buf)
    {
      ghost var d := Value();
      var wanted := if conf.sizeOf.Some? then conf.sizeOf.value(key) else keySz;
      var rehash := false;
      var newKeySz := keySz;
      newBufCap := htab.buf.Length;
      while wanted > newKeySz
        invariant newKeySz >= keySz && Grown(keySz, wanted) == Grown(newKeySz, wanted)
        invariant rehash <==> newKeySz > keySz
        decreases wanted - newKeySz
      {
        newKeySz := newKeySz * 2;
        rehash := true;
      }
      if (htab.bufLoad + 1) as real / htab.buf.Length as real > conf.maxLoadFactor {
        newBufCap := newBufCap * 2;
        rehash := true;
      }
      assert newBufCap == PlannedCap(d) && rehash == Rehashes(d, key);
      if rehash {
        RehashShrinks(conf.ProberFor(newKeySz), htab.buf[..], newBufCap);
        ForceRehash3(newBufCap, newKeySz);
      }
    }

    /** The put that dict_put tries. */
    method TryPut(key: K, val: V) returns (done: bool)
      requires Valid() && key !in Entries()
      modifies htab`bufLoad, htab.buf
      ensures Valid() && htab.p == old(htab.p) && |old(htab.buf[..])| > 0
      ensures !done ==> key !in Entries()
      ensures done <==> Fits(htab.p, old(htab.buf[..]), key)
      ensures htab.buf[..] == ProbeTable.Put(htab.p, old(htab.buf[..]), key, val)
    {
      done := htab.Put(key, val);
    }

    /** One turn of the retry loop of dict_put. */
    method Retry(key: K, val: V, newBufCap: nat) returns (done: bool)
      requires Valid() && key !in Entries() && newBufCap > 0
      modifies this`htab, this`keySz
      ensures Valid() && keySz == old(keySz) && htab.p == old(htab.p) && fresh(htab) && fresh(htab.buf)
      ensures !done ==> key !in Entries()
      ensures var t := Rehash(htab.p, ClearBuckets(newBufCap), old(htab.buf[..]));
        && (done <==> Fits(htab.p, t, key))
        && htab.buf[..] == ProbeTable.Put(htab.p, t, key, val)
    {
      RehashShrinks(htab.p, htab.buf[..], newBufCap);
      ForceRehash3(newBufCap, keySz);
      done := TryPut(key, val);
    }

    /** The table is the one it was, in its buffer, or one made since. */
    twostate predicate SameOrNew(was: HashTable.HashTable<K, V>, buf: array<Bucket<K, V>>)
      reads this`htab
    {
      (htab == was && htab.buf == buf) || (fresh(htab) && fresh(htab.buf))
    }

    /** The put and the retry loop of dict_put. `turns` bounds the loop, which has no bound of its own;
        `done` says whether a put succeeded within it. What is left is exactly the table after r retries
        with the key put in, where no table before it took the key. */
    method PutOrRetry(key: K, val: V, cap: nat, turns: nat) returns (done: bool, ghost r: nat, ghost t: seq<Bucket<K, V>>)
      requires Valid() && key !in Entries() && cap > 0
      modifies this`htab, this`keySz, htab`bufLoad, htab.buf
      ensures Valid() && keySz == old(keySz) && htab.p == old(htab.p)
      ensures SameOrNew(old(htab), old(htab.buf)) && (r == 0 ==> htab == old(htab) && htab.buf == old(htab.buf))
      ensures AfterRetries(htab.p, old(htab.buf[..]), cap, r, key, t) && |t| > 0
      ensures done <==> Fits(htab.p, t, key)
      ensures htab.buf[..] == ProbeTable.Put(htab.p, t, key, val)
      ensures !done ==> r == turns
    {
      hide AfterRetries, Rehash, Fits, ProbeTable.Put, Inv, Abs, UniqueKeys, Quadrupled, Valid, Entries;
      ghost var p, b0 := htab.p, htab.buf[..];
      r, t := 0, b0;
      var left: nat, newBufCap := turns, cap;
      done := TryPut(key, val);
      NoRetries(p, b0, cap, key);
      while !done && left > 0
        invariant Valid() && htab.p == p && keySz == old(keySz)
        invariant (!done ==> key !in Entries()) && SameOrNew(old(htab), old(htab.buf))
        invariant r == 0 ==> htab == old(htab) && htab.buf == old(htab.buf)
        invariant r + left == turns && newBufCap == Quadrupled(cap, r)
        invariant AfterRetries(p, b0, cap, r, key, t) && |t| > 0
        invariant done <==> Fits(p, t, key)
        invariant htab.buf[..] == ProbeTable.Put(p, t, key, val)
        decreases left
      {
        NoPlace(p, t, key, val);
        OneMoreRetry(p, b0, cap, r, key, t);
        newBufCap := newBufCap * 4;
        done := Retry(key, val, newBufCap);
        t := Rehash(p, ClearBuckets(newBufCap), t);
        r, left := r + 1, left - 1;
      }
    }

    /** dict_put on buckets. */
    method PutTable(key: K, val: V, turns: nat) returns (done: bool, ghost r: nat)
      requires Valid() && key !in Entries() && keySz > 0 && Sound(Value())
      modifies this`htab, this`keySz, htab`bufLoad, htab.buf
      ensures Valid() && SameOrNew(old(htab), old(htab.buf))
      ensures Value() == PutIn(old(Value()), key, val, r) && Tried(old(Value()), key, r)
      ensures done <==> Settled(old(Value()), key, r)
      ensures !done ==> r == turns
      ensures r == 0 && !Rehashes(old(Value()), key) ==> htab == old(htab) && htab.buf == old(htab.buf)
    {
      ghost var d, t := Value(), [];
      var newBufCap := Prepare(key);
      hide Rehash, Fits, ProbeTable.Put, Inv, Rehashes, Prepared, PlannedCap, PlannedKeySz;
      done, r, t := PutOrRetry(key, val, newBufCap, turns);
      assert htab.p == PlannedProber(d, key) && t == TableAfter(d, key, r);
    }

    /** dict_put of an absent key, in full. The last clause: while the key is short enough and the load stays
        within the load factor, a key that fits goes into the table that is there. */
    method Put(key: K, val: V, turns: nat) returns (done: bool, ghost r: nat)
      requires Valid() && key !in Entries() && keySz > 0
      modifies this`htab, this`keySz, htab`bufLoad, htab.buf
      ensures Valid() && keySz > 0 && Sound(old(Value())) && SameOrNew(old(htab), old(htab.buf))
      ensures Value() == PutIn(old(Value()), key, val, r) && Tried(old(Value()), key, r)
      ensures (done <==> Settled(old(Value()), key, r)) && (!done ==> r == turns)
      ensures Submap(Entries(), old(Entries())[key := val])
      ensures Entries() == old(Entries())[key := val] <==> done && Lossless(old(Value()), key, r)
      ensures old(WithinLoad(htab.bufLoad, htab.buf.Length, conf.maxLoadFactor))
        ==> WithinLoad(htab.bufLoad, htab.buf.Length, conf.maxLoadFactor)
      ensures NoNeed(old(Value()), key) ==> done && htab == old(htab) && htab.buf == old(htab.buf)
    {
      ghost var d := Value();
      ghost var load, cap, max := htab.bufLoad, htab.buf.Length, conf.maxLoadFactor;
      IsSound();
      hide *;
      done, r := PutTable(key, val, turns);
      IsSound();
      PutInRefines(d, key, val, r);
      if WithinLoad(load, cap, max) { PutInLoad(d, key, val, r); }
      PutInIs(d, key, val, r);
      if NoNeed(d, key) { StaysPut(d, key, r); }
    }
  }

  lemma InvUnique<K(!new), V>(p: Prober<K>, b: seq<Bucket<K, V>>)
    requires Inv(p, b)
    ensures UniqueKeys(b)
  {
  }

  lemma AtMostOneMore<K, V>(m': map<K, V>, m: map<K, V>, key: K, val: V)
    requires Submap(m', m[key := val])
    ensures |m'| <= |m| + 1
  {
    SubmapCard(m', m[key := val]);
    assert m[key := val].Keys == m.Keys + {key};
  }
}
