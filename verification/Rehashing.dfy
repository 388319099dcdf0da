/** htab_rehash: the entries of one table put into another (src/hash.c:136-149). */
module Rehashing {
  import opened ProbeTable
  import opened Traversal

  function Rehash<K(!new), V>(p: Prober<K>, new_: seq<Bucket<K, V>>, old_: seq<Bucket<K, V>>, i: nat := 0)
    : (r: seq<Bucket<K, V>>)
    requires |new_| > 0
    ensures |r| == |new_|
    decreases |old_| - i
  {
    if i >= |old_| then new_
    else if old_[i].Occupied? then Rehash(p, Put(p, new_, old_[i].key, old_[i].val), old_, i + 1)
    else Rehash(p, new_, old_, i + 1)
  }

  /** The keys whose htab_put failed; htab_rehash goes on without them. */
  function Lost<K(!new), V>(p: Prober<K>, new_: seq<Bucket<K, V>>, old_: seq<Bucket<K, V>>, i: nat := 0): set<K>
    requires |new_| > 0
    decreases |old_| - i
  {
    if i >= |old_| then {}
    else if old_[i].Occupied? then
      (if Fits(p, new_, old_[i].key) then {} else {old_[i].key})
      + Lost(p, Put(p, new_, old_[i].key, old_[i].val), old_, i + 1)
    else Lost(p, new_, old_, i + 1)
  }

  /** The new table gets every entry of the old one except those whose put failed. */
  lemma {:induction false} RehashRefines<K(!new), V>(p: Prober<K>, new_: seq<Bucket<K, V>>, old_: seq<Bucket<K, V>>, i: nat)
    requires Inv(p, new_) && i <= |old_| && UniqueKeys(old_[i..])
    requires Abs(new_).Keys !! Abs(old_[i..]).Keys
    ensures Inv(p, Rehash(p, new_, old_, i))
    ensures Lost(p, new_, old_, i) <= Abs(old_[i..]).Keys
    ensures Abs(Rehash(p, new_, old_, i)) == Abs(new_) + (Abs(old_[i..]) - Lost(p, new_, old_, i))
    decreases |old_| - i
  {
    if i == |old_| {
      assert forall s: nat, k :: !Holds(old_[i..], s, k);
    } else {
      AbsSuffix(old_, i);
      if old_[i].Occupied? {
        var k, v := old_[i].key, old_[i].val;
        var next := Put(p, new_, k, v);
        PutRefines(p, new_, k, v);
        RehashRefines(p, next, old_, i + 1);
        OneMore(Abs(new_), Abs(next), Abs(old_[i + 1..]), k, v, Fits(p, new_, k), Lost(p, next, old_, i + 1));
      } else {
        RehashRefines(p, new_, old_, i + 1);
      }
    }
  }

  /** One step of the sum in RehashRefines, on maps. */
  lemma OneMore<K, V>(m: map<K, V>, m': map<K, V>, rest: map<K, V>, k: K, v: V, fits: bool, lost: set<K>)
    requires m' == if fits then m[k := v] else m
    requires k !in m && k !in rest && lost <= rest.Keys
    ensures m' + (rest - lost) == m + (rest[k := v] - ((if fits then {} else {k}) + lost))
  {
  }

  /** Rehashing into a clear table: the map survives exactly when nothing was lost, and no tombstone does. */
  lemma RehashIntoClear<K(!new), V>(p: Prober<K>, new_: seq<Bucket<K, V>>, old_: seq<Bucket<K, V>>)
    requires |new_| > 0 && (forall s: nat :: s < |new_| ==> new_[s].Clear?) && UniqueKeys(old_)
    ensures Inv(p, Rehash(p, new_, old_))
    ensures Abs(Rehash(p, new_, old_)) == Abs(old_) - Lost(p, new_, old_)
    ensures Lost(p, new_, old_) <= Abs(old_).Keys
    ensures Abs(Rehash(p, new_, old_)) == Abs(old_) <==> Lost(p, new_, old_) == {}
    ensures forall s: nat :: s < |new_| ==> !Rehash(p, new_, old_)[s].Deleted?
  {
    ClearTable(p, new_);
    assert old_[0..] == old_;
    RehashRefines(p, new_, old_, 0);
    NoTombstones(p, new_, old_, 0);
    var r, lost := Abs(Rehash(p, new_, old_)), Lost(p, new_, old_);
    if k :| k in lost {
      assert k !in r && k in Abs(old_);
    }
  }

  lemma {:induction false} NoTombstones<K(!new), V>(p: Prober<K>, new_: seq<Bucket<K, V>>, old_: seq<Bucket<K, V>>, i: nat)
    requires |new_| > 0 && forall s: nat :: s < |new_| ==> !new_[s].Deleted?
    ensures forall s: nat :: s < |new_| ==> !Rehash(p, new_, old_, i)[s].Deleted?
    decreases |old_| - i
  {
    if i < |old_| {
      NoTombstones(p, if old_[i].Occupied? then Put(p, new_, old_[i].key, old_[i].val) else new_, old_, i + 1);
    }
  }

  /** Doubling a table can lose an entry: keys 0 and 1 meet in bucket 1 of the larger table, and every
      further probe of key 1 leads there again. Both are stored in the smaller one. */
  lemma RehashCanLose() returns (p: Prober<nat>, old_: seq<Bucket<nat, nat>>)
    ensures |old_| == 2 && Inv(p, old_) && 1 in Abs(old_)
    ensures Inv(p, Rehash(p, [Clear, Clear, Clear, Clear], old_))
    ensures 1 !in Abs(Rehash(p, [Clear, Clear, Clear, Clear], old_))
  {
    p, old_ := CrossedPaths();
    var new_: seq<Bucket<nat, nat>> := [Clear, Clear, Clear, Clear];
    RehashIntoClear(p, new_, old_);
    var one := new_[1 := Occupied(1, 0, 7)];
    assert FirstFree(p, new_, 0) == 0 && Put(p, new_, 0, 7) == one;
    StuckPath(p, one);
    assert Lost(p, one, old_, 1) == {1} + Lost(p, Put(p, one, 1, 8), old_, 2);
    assert Lost(p, new_, old_) == {} + Lost(p, one, old_, 1);
  }

  /** A table of two buckets, both taken: key 0 by its second probe and key 1 by its first. */
  lemma CrossedPaths() returns (p: Prober<nat>, old_: seq<Bucket<nat, nat>>)
    ensures old_ == [Occupied(1, 0, 7), Occupied(5, 1, 8)] && Inv(p, old_) && 1 in Abs(old_)
    ensures p.h(0) == 1 && p.h(1) == 5 && p.out(5) == 1 && forall s: uint32 :: p.next(s) == s
  {
    p := Prober((k: nat) => if k == 0 then 1 else 5, (s: uint32) => if s == 1 then 0 else 1, (s: uint32) => s);
    old_ := [Occupied(1, 0, 7), Occupied(5, 1, 8)];
    assert AtProbe(p, old_, 0, 1);
    assert AtProbe(p, old_, 1, 0);
    assert Holds(old_, 1, 1);
  }

  /** When every probe of key 1 leads to an occupied bucket, it does not fit. */
  lemma StuckPath(p: Prober<nat>, b: seq<Bucket<nat, nat>>)
    requires |b| == 4 && b[1].Occupied?
    requires p.h(1) == 5 && p.out(5) == 1 && forall s: uint32 :: p.next(s) == s
    ensures !Fits(p, b, 1)
  {
    var j := FirstFree(p, b, 1);
    if j > 0 { SeedStays(p, 1, j - 1); }
  }

  lemma {:induction false} SeedStays<K>(p: Prober<K>, k: K, i: nat)
    requires forall s: uint32 :: p.next(s) == s
    ensures Seed(p, k, i) == p.h(k)
  {
    if i > 0 { SeedStays(p, k, i - 1); }
  }
}
