/** What sharing a hash costs: equal hashes mean equal paths, and a path is 32 probes long. */
module Clashes {
  import opened ProbeTable
  import opened Rehashing
  import opened Dict
  import opened Collections

  lemma {:induction false} SamePath<K>(p: Prober<K>, k: K, l: K, cap: nat, i: nat)
    requires cap > 0 && p.h(k) == p.h(l)
    ensures Seed(p, k, i) == Seed(p, l, i) && Slot(p, k, cap, i) == Slot(p, l, cap, i)
  {
    if i > 0 { SamePath(p, k, l, cap, i - 1); }
  }

  /** The probe that leads to a stored key. */
  ghost function ProbeOf<K(!new), V>(p: Prober<K>, b: seq<Bucket<K, V>>, k: K): (n: nat)
    requires Inv(p, b) && k in Abs(b)
    ensures n < MAX_PROBES && Slot(p, k, |b|, n) == SlotOf(b, k)
  {
    assert Reachable(p, b, SlotOf(b, k));
    var n: nat :| n < MAX_PROBES && AtProbe(p, b, SlotOf(b, k), n);
    n
  }

  lemma OneKeyPerProbe<K(!new), V>(p: Prober<K>, b: seq<Bucket<K, V>>, k: K, l: K)
    requires Inv(p, b) && k in Abs(b) && l in Abs(b)
    requires p.h(k) == p.h(l) && ProbeOf(p, b, k) == ProbeOf(p, b, l)
    ensures k == l
  {
    SamePath(p, k, l, |b|, ProbeOf(p, b, k));
    assert SlotOf(b, k) == SlotOf(b, l);
  }

  /** The keys of a map that share a hash. */
  ghost function Sharing<K(!new), V>(p: Prober<K>, m: map<K, V>, hash: uint32): set<K> {
    set k | k in m && p.h(k) == hash
  }

  /** No table, of whatever capacity, ever holds more than 32 keys of one hash. */
  lemma AtMostMaxProbesPerHash<K(!new), V>(p: Prober<K>, b: seq<Bucket<K, V>>, hash: uint32)
    requires Inv(p, b)
    ensures |Sharing(p, Abs(b), hash)| <= 32
  {
    var f := map k | k in Abs(b) && p.h(k) == hash :: ProbeOf(p, b, k);
    forall k, l | k in f && l in f && f[k] == f[l] ensures k == l {
      OneKeyPerProbe(p, b, k, l);
    }
    InjectiveCard(f, MAX_PROBES);
    assert f.Keys == Sharing(p, Abs(b), hash);
  }

  // ---------- the bound is attained ----------

  /** A generator whose probes of any key are the buckets 0, 1, 2 and so on. */
  function Stepping(): Prober<nat> {
    Prober((k: nat) => 0, (s: uint32) => s + 1, (s: uint32) => (s + 1) % 0x1_0000_0000)
  }

  lemma Steps(k: nat, s: uint32)
    requires s <= 32
    ensures Stepping().h(k) == 0 && Stepping().out(s) == s + 1 && Stepping().next(s) == s + 1
  {
  }

  lemma {:induction false} SteppingSlot(k: nat, cap: nat, i: nat)
    requires i <= 32 && cap > 0
    ensures Seed(Stepping(), k, i) == i && Slot(Stepping(), k, cap, i) == i % cap
  {
    hide Stepping;
    Steps(k, if i == 0 then 0 else i - 1);
    if i > 0 { SteppingSlot(k, cap, i - 1); }
  }

  /** The keys n .. 31 inserted one after the other. */
  function Inserts(n: nat): (ops: seq<Op<nat, int>>)
    requires n <= 32
    ensures |ops| == 32 - n
    decreases 32 - n
  {
    if n == 32 then [] else [Insert(n, 7)] + Inserts(n + 1)
  }

  /** A table of 32 buckets of which the first n hold the keys 0 .. n - 1. */
  function Filled(n: nat): (b: seq<Bucket<nat, int>>)
    requires n <= 32
    ensures |b| == 32
  {
    seq(32, i requires 0 <= i < 32 => if i < n then Occupied(i, i, 7) else Clear)
  }

  function Below(n: nat): (r: set<nat>)
    ensures |r| == n && forall k: nat :: k in r <==> k < n
  {
    if n == 0 then {} else
    var r := Below(n - 1);
    assert n - 1 !in r;
    r + {n - 1}
  }

  lemma FilledInv(n: nat)
    requires n <= 32
    ensures Inv(Stepping(), Filled(n)) && Abs(Filled(n)).Keys == Below(n)
  {
    var b := Filled(n);
    forall s: nat | s < 32 && b[s].Occupied? ensures Reachable(Stepping(), b, s) {
      forall i: nat | i <= s ensures Seed(Stepping(), s, i) == i && Slot(Stepping(), s, 32, i) == i {
        SteppingSlot(s, 32, i);
      }
      assert AtProbe(Stepping(), b, s, s);
    }
    forall k: nat ensures k in Abs(b) <==> k < n {
      if k < n { assert Holds(b, k, k); }
    }
  }

  lemma FirstFreeIs<K(!new), V>(p: Prober<K>, b: seq<Bucket<K, V>>, k: K, n: nat)
    requires |b| > 0 && n < MAX_PROBES && !b[Slot(p, k, |b|, n)].Occupied?
    requires forall i: nat :: i < n ==> b[Slot(p, k, |b|, i)].Occupied?
    ensures FirstFree(p, b, k) == n
  {
    hide FirstFree, Slot;
  }

  lemma FilledPut(n: nat)
    requires n < 32
    ensures Put(Stepping(), Filled(n), n, 7) == Filled(n + 1)
  {
    var p, b := Stepping(), Filled(n);
    forall i: nat | i <= n ensures Slot(p, n, 32, i) == i && Seed(p, n, i) == i { SteppingSlot(n, 32, i); }
    hide Stepping, Slot, Seed, FirstFree;
    FirstFreeIs(p, b, n, n);
    assert Put(p, b, n, 7) == b[n := Occupied(n, n, 7)];
  }

  /** A run by its first operation, an insertion. */
  lemma OneInsert<K(!new), V>(p: Prober<K>, b: seq<Bucket<K, V>>, k: K, v: V, ops: seq<Op<K, V>>)
    requires Inv(p, b) && k !in Abs(b) && Inv(p, Put(p, b, k, v)) && Legal(p, Put(p, b, k, v), ops)
    ensures Legal(p, b, [Insert(k, v)] + ops) && End(p, b, [Insert(k, v)] + ops) == End(p, Put(p, b, k, v), ops)
  {
    var all := [Insert(k, v)] + ops;
    assert all[1..] == ops && Perform(p, b, all[0]) == Put(p, b, k, v);
    hide Inv, Abs, Put, Perform;
  }

  lemma NoOperation<K(!new), V>(p: Prober<K>, b: seq<Bucket<K, V>>)
    requires Inv(p, b)
    ensures Legal(p, b, []) && End(p, b, []) == b
  {
  }

  /** From the first n keys on, inserting the others is a legal run that fills the table. */
  lemma {:induction false} InsertsFill(n: nat)
    requires n <= 32
    ensures Inv(Stepping(), Filled(n)) && Legal(Stepping(), Filled(n), Inserts(n))
    ensures End(Stepping(), Filled(n), Inserts(n)) == Filled(32)
    decreases 32 - n
  {
    hide Stepping, Filled, Inv, Legal, End, Abs, Put;
    FilledInv(n);
    NoOperation(Stepping(), Filled(n));
    if n < 32 {
      FilledPut(n);
      InsertsFill(n + 1);
      OneInsert(Stepping(), Filled(n), n, 7, Inserts(n + 1));
    }
  }

  lemma FilledShares(n: nat)
    requires n <= 32
    ensures UniqueKeys(Filled(n)) && Sharing(Stepping(), Abs(Filled(n)), 0) == Below(n)
  {
    FilledInv(n);
    var m := Abs(Filled(n));
    hide Filled, Abs;
    assert forall k :: k in m <==> k in m.Keys;
  }

  lemma FilledNone()
    ensures forall s: nat :: s < 32 ==> Filled(0)[s].Clear?
  {
  }

  /** A legal run from the empty table that stores 32 keys of one hash. */
  lemma ThirtyTwoShareAHash() returns (b: seq<Bucket<nat, int>>, ops: seq<Op<nat, int>>)
    ensures |b| == 32 && (forall s: nat :: s < 32 ==> b[s].Clear?) && |ops| == 32
    ensures Inv(Stepping(), b) && Legal(Stepping(), b, ops) && UniqueKeys(End(Stepping(), b, ops))
    ensures |Sharing(Stepping(), Abs(End(Stepping(), b, ops)), 0)| == 32
  {
    b, ops := Filled(0), Inserts(0);
    FilledNone();
    hide *;
    InsertsFill(0);
    FilledShares(32);
  }

  // ---------- what that means for dict_put ----------

  /** dict_put of a key that would be the 33rd of its hash never leaves the map it should: it can only go
      on rehashing until an entry is lost. */
  lemma CrowdedPutLoses<K(!new), V>(d: Dictionary<K, V>, key: K, val: V, r: nat, hash: uint32)
    requires Sound(d) && UniqueKeys(d.buf) && key !in Abs(d.buf) && Tried(d, key, r)
    requires |Sharing(PlannedProber(d, key), Abs(d.buf)[key := val], hash)| > 32
    ensures UniqueKeys(PutIn(d, key, val, r).buf) && Abs(PutIn(d, key, val, r).buf) != Abs(d.buf)[key := val]
    ensures Settled(d, key, r) ==> !Lossless(d, key, r)
  {
    var p := PlannedProber(d, key);
    hide *;
    PutInRefines(d, key, val, r);
    PutInIs(d, key, val, r);
    AtMostMaxProbesPerHash(p, PutIn(d, key, val, r).buf, hash);
  }

  /** The same of the dictionary: no sequence of operations leaves it with such a map. */
  lemma NeverCrowded<K(!new), V>(d: Dict<K, V>, m: map<K, V>, hash: uint32)
    requires d.Valid() && |Sharing(d.htab.p, m, hash)| > 32
    ensures d.Entries() != m
  {
    AtMostMaxProbesPerHash(d.htab.p, d.htab.buf[..], hash);
  }
}
